/**
 * The parser driver (lempar.c) as a step function over its stack, and what table
 * generation means for it: a parser running on the packed, compressed tables does
 * exactly what a parser consulting the original action lists does, as long as the
 * latter meets no syntax error.
 */
module LemonDriver {
  import opened Options
  import opened MergeSort
  import opened LemonActions
  import opened LemonResolve
  import opened LemonCompress
  import opened LemonTables

  const STACK_DEPTH: nat := 100

  datatype Rule = Rule(lhs: int, nrhs: nat)

  /** Where the driver gets its actions from: numbers as in the generated tables. */
  datatype Machine = Machine(g: Sizes, rules: seq<Rule>, act: (nat, int) -> int, goto: (nat, int) -> int)

  datatype Frame = Frame(state: nat, major: int)

  datatype Status = Running | Accepted | SyntaxError | Overflow | Corrupt | Ignored

  datatype Event = Shifted(token: int, state: int) | Reduced(rule: int)

  /** `input` is the tokens not yet shifted, ending with the end marker 0. */
  datatype Config = Config(stack: seq<Frame>, input: seq<int>, log: seq<Event>, status: Status)

  /** yy_shift: push, or give up when the stack is full. */
  function Push(c: Config, state: nat, major: int): Config {
    if |c.stack| >= STACK_DEPTH then c.(stack := [], status := Overflow)
    else c.(stack := c.stack + [Frame(state, major)])
  }

  /** yy_reduce: pop the right-hand side, then go where the left-hand side leads. */
  function ReduceBy(m: Machine, c: Config, rule: int): Config {
    if rule < 0 || rule >= |m.rules| || m.rules[rule].nrhs >= |c.stack| then c.(status := Corrupt)
    else
      var r := m.rules[rule];
      var d := c.(stack := c.stack[..|c.stack| - r.nrhs], log := c.log + [Reduced(rule)]);
      var act := m.goto(d.stack[|d.stack| - 1].state, r.lhs);
      if 0 <= act < m.g.nstate then Push(d, act, r.lhs)
      else if act == m.g.nstate + m.g.nrule + 1 then d.(stack := [], status := Accepted)
      else d
  }

  /** One turn of the loop in Parse. */
  function StepParser(m: Machine, c: Config): Config {
    if c.stack == [] || c.input == [] then c.(status := Corrupt)
    else
      var token := c.input[0];
      var act := m.act(c.stack[|c.stack| - 1].state, token);
      if 0 <= act < m.g.nstate then
        var rest := if token == 0 then c.input else c.input[1..];
        Push(c.(log := c.log + [Shifted(token, act)], input := rest), act, token)
      else if m.g.nstate <= act < m.g.nstate + m.g.nrule then ReduceBy(m, c, act - m.g.nstate)
      else if act == m.g.nstate + m.g.nrule then c.(status := SyntaxError)
      else c.(stack := [], status := Accepted)
  }

  /** The first token starts the parser, unless it is the end marker: that is ignored. */
  function Begin(w: seq<nat>): Config {
    if w != [] && w[0] == 0 then Config([], w, [], Ignored) else Config([Frame(0, 0)], w, [], Running)
  }

  function Run(m: Machine, c: Config, n: nat): Config
    decreases n
  {
    if n == 0 || c.status != Running then c else Run(m, StepParser(m, c), n - 1)
  }

  /** The driver consulting action lists directly. */
  function ListMachine(g: Sizes, rules: seq<Rule>, lists: seq<seq<Action>>): Machine {
    var look := (s: nat, symbol: int) =>
      if s < |lists| && 0 <= symbol < g.nsymbol then MoveCode(g, MoveOn(lists[s], g.nsymbol, symbol))
        else g.nstate + g.nrule;
    Machine(g, rules, look, look)
  }

  /** The driver reading the generated tables; tokens are terminals. */
  function TableMachine(g: Sizes, rules: seq<Rule>, t: Packed): Machine
    requires Shaped(t, g)
  {
    Machine(g, rules,
      (s: nat, symbol: int) =>
        if s < g.nstate && 0 <= symbol < g.nterminal then FindAction(t, g, t.shift, s, symbol) else g.nstate + g.nrule,
      (s: nat, symbol: int) =>
        if s < g.nstate && 0 <= symbol < g.nsymbol then FindAction(t, g, t.reduce, s, symbol) else g.nstate + g.nrule)
  }

  /** The tables agree with the compressed lists, as ReportTable guarantees. */
  ghost predicate Generated(g: Sizes, lists: seq<seq<Action>>, t: Packed) {
    && Shaped(t, g) && |lists| == g.nstate
    && (forall s, symbol :: 0 <= s < g.nstate && 0 <= symbol < g.nterminal ==>
          FindAction(t, g, t.shift, s, symbol) == MoveCode(g, MoveOn(lists[s], g.nsymbol, symbol)))
    && forall s, symbol :: 0 <= s < g.nstate && g.nterminal <= symbol < g.nsymbol ==>
      FindAction(t, g, t.reduce, s, symbol) == MoveCode(g, MoveOn(lists[s], g.nsymbol, symbol))
  }

  /** `lists'` is `lists` compressed, state by state. */
  ghost predicate AllCompressed(g: Sizes, lists: seq<seq<Action>>, lists': seq<seq<Action>>) {
    && Input(g, lists) && Input(g, lists') && |lists| == |lists'|
    && forall s, symbol :: 0 <= s < |lists| && 0 <= symbol < g.nsymbol ==>
      Compressed(lists[s], lists'[s], g.nsymbol, symbol)
  }

  ghost predicate GrammarRules(g: Sizes, rules: seq<Rule>) {
    |rules| == g.nrule && forall r :: 0 <= r < |rules| ==> g.nterminal <= rules[r].lhs < g.nsymbol
  }

  /** A found move has a code in its own range. */
  lemma CodeRange(g: Sizes, list: seq<Action>, symbol: int)
    requires InGrammar(g, list)
    ensures var m := MoveOn(list, g.nsymbol, symbol);
            m.Some? ==>
              && (m.value.kind == Reduce ==> g.nstate <= MoveCode(g, m) < g.nstate + g.nrule)
              && (m.value.kind == Shift ==> 0 <= MoveCode(g, m) < g.nstate)
              && MoveCode(g, m) >= 0
  {
    var f, d := Find(list, symbol), Find(list, g.nsymbol);
    if f.Some? {
      var k :| 0 <= k < |list| && list[k] == f.value;
    } else if d.Some? {
      var k :| 0 <= k < |list| && list[k] == d.value;
    }
  }

  /** Where the original lists have a move, the tables have the same; elsewhere they hold an
      error or a reduce. */
  lemma ActionsAgree(g: Sizes, rules: seq<Rule>, lists: seq<seq<Action>>, lists': seq<seq<Action>>, t: Packed, s: nat,
                     token: int)
    requires AllCompressed(g, lists, lists') && Generated(g, lists', t) && 0 <= token < g.nterminal
    ensures var m, n := ListMachine(g, rules, lists), TableMachine(g, rules, t);
            m.act(s, token) != g.nstate + g.nrule ==> n.act(s, token) == m.act(s, token)
  {
    if s < g.nstate {
      assert Compressed(lists[s], lists'[s], g.nsymbol, token);
    }
  }

  lemma GotosAgree(g: Sizes, rules: seq<Rule>, lists: seq<seq<Action>>, lists': seq<seq<Action>>, t: Packed, s: nat,
                   symbol: int)
    requires AllCompressed(g, lists, lists') && Generated(g, lists', t) && g.nterminal <= symbol < g.nsymbol
    ensures var m, n := ListMachine(g, rules, lists), TableMachine(g, rules, t);
            SameGoto(m, m.goto(s, symbol), n.goto(s, symbol))
  {
    if s < g.nstate {
      assert Compressed(lists[s], lists'[s], g.nsymbol, symbol);
      CodeRange(g, lists'[s], symbol);
    }
  }

  /** Machine n follows machine m: the same action wherever m has one, and the same goto. */
  ghost predicate Follows(m: Machine, n: Machine) {
    && n.g == m.g && n.rules == m.rules
    && (forall s: nat, token :: 0 <= token < m.g.nterminal && m.act(s, token) != m.g.nstate + m.g.nrule ==>
          n.act(s, token) == m.act(s, token))
    && forall s: nat, symbol :: m.g.nterminal <= symbol < m.g.nsymbol ==>
      SameGoto(m, m.goto(s, symbol), n.goto(s, symbol))
  }

  /** Two goto entries that the driver treats alike. */
  predicate SameGoto(m: Machine, a: int, b: int) {
    a == b || (m.g.nstate <= a <= m.g.nstate + m.g.nrule && m.g.nstate <= b <= m.g.nstate + m.g.nrule)
  }

  lemma ReducesAgree(m: Machine, n: Machine, c: Config, rule: int)
    requires Follows(m, n) && GrammarRules(m.g, m.rules)
    ensures ReduceBy(n, c, rule) == ReduceBy(m, c, rule)
  {
    if 0 <= rule < |m.rules| && m.rules[rule].nrhs < |c.stack| {
      var rest := c.stack[..|c.stack| - m.rules[rule].nrhs];
      var s, lhs := rest[|rest| - 1].state, m.rules[rule].lhs;
      assert SameGoto(m, m.goto(s, lhs), n.goto(s, lhs));
    }
  }

  lemma StepsAgree(m: Machine, n: Machine, c: Config)
    requires Follows(m, n) && GrammarRules(m.g, m.rules) && c.status == Running
    requires StepParser(m, c).status != SyntaxError
    requires forall k :: 0 <= k < |c.input| ==> 0 <= c.input[k] < m.g.nterminal
    ensures StepParser(n, c) == StepParser(m, c)
  {
    if c.stack != [] && c.input != [] {
      var act := m.act(c.stack[|c.stack| - 1].state, c.input[0]);
      ReducesAgree(m, n, c, act - m.g.nstate);
    }
  }

  lemma StepKeepsTokens(m: Machine, c: Config)
    requires forall k :: 0 <= k < |c.input| ==> 0 <= c.input[k] < m.g.nterminal
    ensures var d := StepParser(m, c); forall k :: 0 <= k < |d.input| ==> 0 <= d.input[k] < m.g.nterminal
  {
    var d := StepParser(m, c);
    assert d.input == c.input || d.input == c.input[1..];
  }

  lemma {:induction false} RunsAgree(m: Machine, n: Machine, c: Config, steps: nat)
    requires Follows(m, n) && GrammarRules(m.g, m.rules) && Run(m, c, steps).status != SyntaxError
    requires forall k :: 0 <= k < |c.input| ==> 0 <= c.input[k] < m.g.nterminal
    ensures Run(n, c, steps) == Run(m, c, steps)
    decreases steps
  {
    if steps > 0 && c.status == Running {
      var d := StepParser(m, c);
      assert Run(m, c, steps) == Run(m, d, steps - 1);
      ErrorIsFinal(m, d, steps - 1);
      StepsAgree(m, n, c);
      StepKeepsTokens(m, c);
      RunsAgree(m, n, d, steps - 1);
    }
  }

  lemma ErrorIsFinal(m: Machine, c: Config, n: nat)
    ensures c.status == SyntaxError ==> Run(m, c, n).status == SyntaxError
  {
  }

  /** Every run of the original automaton that meets no syntax error is, step for step and
      with the same shifts and reduces, a run on the generated tables. */
  lemma ParsesAlike(g: Sizes, rules: seq<Rule>, lists: seq<seq<Action>>, lists': seq<seq<Action>>, t: Packed,
                    c: Config, steps: nat)
    requires AllCompressed(g, lists, lists') && Generated(g, lists', t) && GrammarRules(g, rules)
    requires forall k :: 0 <= k < |c.input| ==> 0 <= c.input[k] < g.nterminal
    requires Run(ListMachine(g, rules, lists), c, steps).status != SyntaxError
    ensures Run(TableMachine(g, rules, t), c, steps) == Run(ListMachine(g, rules, lists), c, steps)
  {
    var m, n := ListMachine(g, rules, lists), TableMachine(g, rules, t);
    forall s: nat, token | 0 <= token < g.nterminal && m.act(s, token) != g.nstate + g.nrule
      ensures n.act(s, token) == m.act(s, token)
    {
      ActionsAgree(g, rules, lists, lists', t, s, token);
    }
    forall s: nat, symbol | g.nterminal <= symbol < g.nsymbol
      ensures SameGoto(m, m.goto(s, symbol), n.goto(s, symbol))
    {
      GotosAgree(g, rules, lists, lists', t, s, symbol);
    }
    RunsAgree(m, n, c, steps);
  }

  // ----- the generator as a whole -----

  function Size(g: Sizes, lists: seq<seq<Action>>, job: Job): nat {
    if job.state < |lists| then |JobRow(g, lists, job.state, job.tokens)| else 0
  }

  /** The jobs, largest first. */
  method OrderJobs(g: Sizes, lists: seq<seq<Action>>) returns (order: seq<Job>)
    requires 2 * |lists| < 1073741824
    ensures LargestFirst(g, lists, order)
  {
    var n := 2 * |lists|;
    var jobs := seq(n, i requires 0 <= i < n => Job(i / 2, i % 2 == 0));
    var larger := (a: Job, b: Job) => Size(g, lists, a) > Size(g, lists, b);
    order := Sort(larger, jobs);
    SortIsStable(larger, jobs);
    SortIsPermutation(larger, jobs);
    forall i | 0 <= i < |order| ensures order[i].state < |lists| {
      assert order[i] in multiset(jobs);
    }
    forall s, b | 0 <= s < |lists| ensures Job(s, b) in order {
      var k := 2 * s + if b then 0 else 1;
      assert k / 2 == s && (k % 2 == 0) == b;
      assert jobs[k] == Job(s, b);
      assert Job(s, b) in multiset(jobs) && Job(s, b) in multiset(order);
    }
    forall i, j | 0 <= i < j < |order| ensures Size(g, lists, order[i]) >= Size(g, lists, order[j]) {
      assert !larger(order[j], order[i]);
    }
  }

  /** Conflict resolution kept exactly one of the actions on each symbol. */
  ghost predicate Resolved(before: seq<Action>, after: seq<Action>) {
    && Unambiguous(after)
    && (forall symbol :: Find(after, symbol).Some? <==> exists a :: a in before && a.symbol == symbol)
    && forall symbol :: Find(after, symbol).Some? ==> Find(after, symbol).value in before
  }

  ghost predicate Buildable(g: Sizes, list: seq<Action>) {
    && Built(list) && InGrammar(g, list) && |list| < 1073741824
    && forall k :: 0 <= k < |list| ==> list[k].symbol < g.nsymbol
  }

  lemma WeakenedInGrammar(g: Sizes, before: seq<Action>, after: seq<Action>)
    requires Buildable(g, before) && forall b :: b in after ==> exists a :: a in before && Weakened(a, b)
    ensures InGrammar(g, after) && forall k :: 0 <= k < |after| ==> after[k].symbol < g.nsymbol
  {
    forall k | 0 <= k < |after| ensures InGrammar(g, [after[k]]) && after[k].symbol < g.nsymbol {
      assert after[k] in after;
      var a :| a in before && Weakened(a, after[k]);
      var i :| 0 <= i < |before| && before[i] == a;
    }
    assert forall k :: 0 <= k < |after| ==> after[k] == [after[k]][0];
  }

  lemma DerivedInGrammar(g: Sizes, before: seq<Action>, after: seq<Action>)
    requires InGrammar(g, before) && forall b :: b in after ==> exists a :: a in before && Derived(a, b, g.nsymbol)
    ensures InGrammar(g, after)
  {
    forall k | 0 <= k < |after| ensures InGrammar(g, [after[k]]) {
      assert after[k] in after;
      var a :| a in before && Derived(a, after[k], g.nsymbol);
      var i :| 0 <= i < |before| && before[i] == a;
    }
    assert forall k :: 0 <= k < |after| ==> after[k] == [after[k]][0];
  }

  /** The actions of a state, resolved, and the same compressed. */
  ghost predicate Finished(g: Sizes, prec: Precedences, start: seq<Action>, list: seq<Action>, packed: seq<Action>) {
    && Resolved(start, list) && Decided(prec, start, list)
    && InGrammar(g, list) && InGrammar(g, packed) && Unambiguous(packed)
    && forall symbol :: symbol < g.nsymbol ==> Compressed(list, packed, g.nsymbol, symbol)
  }

  /** One state: resolve its conflicts, then compress it. */
  method FinishState(g: Sizes, prec: Precedences, st: State) returns (ghost list: seq<Action>)
    requires Buildable(g, st.ap)
    modifies st
    ensures Finished(g, prec, old(st.ap), list, st.ap)
  {
    var _ := st.ResolveAll(prec);
    list := st.ap;
    WeakenedInGrammar(g, old(st.ap), list);
    Compress(st, g.nsymbol);
    DerivedInGrammar(g, list, st.ap);
  }

  /** From the actions the state builder collected to tables the driver can run on. */
  method Generate(g: Sizes, prec: Precedences, states: seq<State>)
    returns (t: Packed, ghost lists: seq<seq<Action>>, ghost lists': seq<seq<Action>>)
    requires |states| == g.nstate < 536870912 && g.nterminal <= g.nsymbol
    requires forall i, j :: 0 <= i < j < |states| ==> states[i] != states[j]
    requires forall s :: 0 <= s < |states| ==> Buildable(g, states[s].ap)
    modifies states
    ensures Generated(g, lists', t) && AllCompressed(g, lists, lists')
    ensures forall s :: 0 <= s < |states| ==> Resolved(old(states[s].ap), lists[s])
    ensures forall s :: 0 <= s < |states| ==> Decided(prec, old(states[s].ap), lists[s])
  {
    var packed;
    ghost var start := seq(|states|, s requires 0 <= s < |states| reads states => states[s].ap);
    packed, lists := FinishStates(g, prec, states, start);
    lists' := packed;
    var order := OrderJobs(g, packed);
    assert AllCompressed(g, lists, packed);
    t := ReportTable(g, packed, order);
  }

  /** The first i states are finished. */
  ghost predicate AllFinished(g: Sizes, prec: Precedences, start: seq<seq<Action>>, lists: seq<seq<Action>>,
                              packed: seq<seq<Action>>, i: nat) {
    |lists| == |packed| == i <= |start| && forall s :: 0 <= s < i ==> Finished(g, prec, start[s], lists[s], packed[s])
  }

  lemma OneMoreFinished(g: Sizes, prec: Precedences, start: seq<seq<Action>>, lists: seq<seq<Action>>,
                        packed: seq<seq<Action>>, i: nat, list: seq<Action>, ap: seq<Action>)
    requires AllFinished(g, prec, start, lists, packed, i) && i < |start| && Finished(g, prec, start[i], list, ap)
    ensures AllFinished(g, prec, start, lists + [list], packed + [ap], i + 1)
  {
  }

  /** The loops over the states. */
  method FinishStates(g: Sizes, prec: Precedences, states: seq<State>, ghost start: seq<seq<Action>>)
    returns (packed: seq<seq<Action>>, ghost lists: seq<seq<Action>>)
    requires |states| == |start| && forall s :: 0 <= s < |states| ==> states[s].ap == start[s] && Buildable(g, start[s])
    requires forall i, j :: 0 <= i < j < |states| ==> states[i] != states[j]
    modifies states
    ensures AllFinished(g, prec, start, lists, packed, |states|)
  {
    lists := [];
    packed := [];
    var i := 0;
    while i < |states|
      invariant 0 <= i <= |states| && AllFinished(g, prec, start, lists, packed, i)
      invariant forall s :: i <= s < |states| ==> states[s].ap == start[s]
    {
      packed, lists := FinishNext(g, prec, states, i, start, packed, lists);
      i := i + 1;
    }
  }

  method FinishNext(g: Sizes, prec: Precedences, states: seq<State>, i: nat, ghost start: seq<seq<Action>>,
                    packed0: seq<seq<Action>>, ghost lists0: seq<seq<Action>>)
    returns (packed: seq<seq<Action>>, ghost lists: seq<seq<Action>>)
    requires i < |states| == |start| && states[i].ap == start[i] && Buildable(g, start[i])
    requires AllFinished(g, prec, start, lists0, packed0, i)
    requires forall s :: i < s < |states| ==> states[i] != states[s]
    modifies states[i]
    ensures AllFinished(g, prec, start, lists, packed, i + 1)
    ensures forall s :: i < s < |states| ==> states[s].ap == old(states[s].ap)
  {
    ghost var list := FinishState(g, prec, states[i]);
    OneMoreFinished(g, prec, start, lists0, packed0, i, list, states[i].ap);
    lists := lists0 + [list];
    packed := packed0 + [states[i].ap];
  }
}
