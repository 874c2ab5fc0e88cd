/**
 * The action tables: ReportTable (lemon.c) packs the rows of all states, and the driver
 * (lempar.c) reads them back.  Read through the packed tables, every state makes exactly
 * the moves of its action list.
 */
module LemonTables {
  import opened Options
  import opened ActionTable
  import opened LemonActions
  import opened LemonCompress

  datatype Sizes = Sizes(nstate: nat, nrule: nat, nterminal: nat, nsymbol: nat)

  /** compute_action: the number standing for an action in the tables. */
  function Code(g: Sizes, kind: Kind, arg: int): int {
    match kind
    case Shift => arg
    case Reduce => arg + g.nstate
    case Error => g.nstate + g.nrule
    case Accept => g.nstate + g.nrule + 1
    case _ => -1
  }

  function MoveCode(g: Sizes, m: Option<Move>): int {
    match m
    case Some(v) => Code(g, v.kind, v.arg)
    case None => g.nstate + g.nrule
  }

  /** Shifts go to states and reduces use rules of the grammar. */
  ghost predicate InGrammar(g: Sizes, list: seq<Action>) {
    forall k :: 0 <= k < |list| ==>
      && 0 <= list[k].symbol <= g.nsymbol
      && (list[k].kind == Shift ==> 0 <= list[k].arg < g.nstate)
      && (list[k].kind == Reduce ==> 0 <= list[k].arg < g.nrule)
  }

  /** The row of a state: its usable actions on symbols lo .. hi - 1. */
  function RowOf(g: Sizes, list: seq<Action>, lo: int, hi: int): seq<Entry> {
    if list == [] then []
    else
      var a := list[|list| - 1];
      RowOf(g, list[..|list| - 1], lo, hi)
      + if lo <= a.symbol < hi && Code(g, a.kind, a.arg) >= 0 then [Entry(a.symbol, Code(g, a.kind, a.arg))] else []
  }

  lemma {:induction false} RowMembers(g: Sizes, list: seq<Action>, lo: int, hi: int, e: Entry)
    requires InGrammar(g, list)
    ensures e in RowOf(g, list, lo, hi) <==>
      exists k :: 0 <= k < |list| && Usable(list[k]) && lo <= list[k].symbol < hi
        && e == Entry(list[k].symbol, Code(g, list[k].kind, list[k].arg))
  {
    if list != [] {
      var n := |list| - 1;
      RowMembers(g, list[..n], lo, hi, e);
      assert forall k :: 0 <= k < n ==> list[..n][k] == list[k];
    }
  }

  lemma {:induction false} RowDistinct(g: Sizes, list: seq<Action>, lo: int, hi: int)
    requires InGrammar(g, list) && Unambiguous(list)
    ensures DistinctLookaheads(RowOf(g, list, lo, hi))
  {
    if list != [] {
      var n := |list| - 1;
      RowDistinct(g, list[..n], lo, hi);
      var row := RowOf(g, list[..n], lo, hi);
      forall i | 0 <= i < |row| ensures Usable(list[n]) ==> row[i].lookahead != list[n].symbol {
        RowMembers(g, list[..n], lo, hi, row[i]);
        assert row[i] in row;
      }
    }
  }

  /** A row says what the list says. */
  lemma RowSays(g: Sizes, list: seq<Action>, lo: int, hi: int, symbol: int)
    requires InGrammar(g, list) && Unambiguous(list) && lo <= symbol < hi
    ensures RowFind(RowOf(g, list, lo, hi), symbol) ==
      match Find(list, symbol) case Some(a) => Some(Code(g, a.kind, a.arg)) case None => None
  {
    var row := RowOf(g, list, lo, hi);
    match RowFind(row, symbol) {
      case Some(c) =>
        RowMembers(g, list, lo, hi, Entry(symbol, c));
        var k :| 0 <= k < |list| && Usable(list[k]) && list[k].symbol == symbol &&
          c == Code(g, list[k].kind, list[k].arg);
        FindMember(list, list[k]);
      case None =>
        if Find(list, symbol).Some? {
          var a := Find(list, symbol).value;
          var k :| 0 <= k < |list| && list[k] == a;
          RowMembers(g, list, lo, hi, Entry(symbol, Code(g, a.kind, a.arg)));
        }
    }
  }

  // ----- the generated tables and their readers -----

  datatype Offsets = Offsets(ofst: seq<int>, useDflt: int)

  datatype Packed = Packed(action: seq<int>, lookahead: seq<int>, shift: Offsets, reduce: Offsets, dflt: seq<int>)

  predicate Shaped(t: Packed, g: Sizes) {
    |t.action| == |t.lookahead| && |t.shift.ofst| == |t.reduce.ofst| == |t.dflt| == g.nstate
  }

  /** yy_find_shift_action and yy_find_reduce_action differ only in the offsets they use. */
  function FindAction(t: Packed, g: Sizes, o: Offsets, state: nat, lookahead: int): int
    requires Shaped(t, g) && |o.ofst| == g.nstate && state < g.nstate
  {
    var i := o.ofst[state];
    if i == o.useDflt then t.dflt[state]
    else if lookahead == g.nsymbol + 1 then g.nstate + g.nrule + 2
    else if i + lookahead < 0 || i + lookahead >= |t.action| then t.dflt[state]
    else if t.lookahead[i + lookahead] != lookahead then t.dflt[state]
    else t.action[i + lookahead]
  }

  /** One half of a state: its moves on terminals, or its moves on nonterminals. */
  datatype Job = Job(state: nat, tokens: bool)

  function Lo(g: Sizes, tokens: bool): nat { if tokens then 0 else g.nterminal }
  function Hi(g: Sizes, tokens: bool): nat { if tokens then g.nterminal else g.nsymbol }

  function JobRow(g: Sizes, lists: seq<seq<Action>>, state: nat, tokens: bool): seq<Entry>
    requires state < |lists|
  {
    RowOf(g, lists[state], Lo(g, tokens), Hi(g, tokens))
  }

  ghost predicate Input(g: Sizes, lists: seq<seq<Action>>) {
    && |lists| == g.nstate && g.nterminal <= g.nsymbol
    && forall s :: 0 <= s < |lists| ==> InGrammar(g, lists[s]) && Unambiguous(lists[s])
  }

  /** An outcome of sorting the jobs, largest row first. */
  ghost predicate LargestFirst(g: Sizes, lists: seq<seq<Action>>, order: seq<Job>) {
    && (forall i :: 0 <= i < |order| ==> order[i].state < |lists|)
    && (forall s, b :: 0 <= s < |lists| ==> Job(s, b) in order)
    && forall i, j :: 0 <= i < j < |order| ==>
      |JobRow(g, lists, order[i].state, order[i].tokens)| >= |JobRow(g, lists, order[j].state, order[j].tokens)|
  }

  /** Every offset assigned so far belongs to a stored row, and is at least `mn`. */
  ghost predicate Located(g: Sizes, lists: seq<seq<Action>>, placed: seq<Placement>, ofst: seq<Option<int>>, mn: int,
                          tokens: bool) {
    && |ofst| == |lists| && mn <= 0
    && forall s :: 0 <= s < |ofst| && ofst[s].Some? ==>
      mn <= ofst[s].value && Placement(JobRow(g, lists, s, tokens), ofst[s].value) in placed
  }

  /** Collects the row of one job. */
  method AddRow(tab: Acttab, g: Sizes, list: seq<Action>, lo: int, hi: int)
    requires tab.Valid() && tab.aLookahead == []
    modifies tab
    ensures tab.Valid() && tab.aLookahead == RowOf(g, list, lo, hi) && tab.placed == old(tab.placed)
  {
    var k := 0;
    while k < |list|
      invariant 0 <= k <= |list|
      invariant tab.Valid() && tab.aLookahead == RowOf(g, list[..k], lo, hi) && tab.placed == old(tab.placed)
    {
      assert list[..k + 1][..k] == list[..k];
      var action := Code(g, list[k].kind, list[k].arg);
      if lo <= list[k].symbol < hi && action >= 0 {
        tab.Action(list[k].symbol, action);
      }
      k := k + 1;
    }
    assert list[..k] == list;
  }

  /** One turn of the packing loop. */
  method Place(tab: Acttab, g: Sizes, lists: seq<seq<Action>>, job: Job, ofst: seq<Option<int>>, mn: int,
               ghost others: seq<Option<int>>, ghost mnOthers: int)
    returns (ofst': seq<Option<int>>, mn': int)
    requires tab.Valid() && tab.aLookahead == [] && Input(g, lists) && job.state < |lists|
    requires JobRow(g, lists, job.state, job.tokens) != [] && Located(g, lists, tab.placed, ofst, mn, job.tokens)
    requires Located(g, lists, tab.placed, others, mnOthers, !job.tokens)
    modifies tab
    ensures tab.Valid() && tab.aLookahead == []
    ensures Located(g, lists, tab.placed, ofst', mn', job.tokens)
    ensures Located(g, lists, tab.placed, others, mnOthers, !job.tokens)
    ensures ofst'[job.state].Some? && forall s :: 0 <= s < |ofst| && ofst[s].Some? ==> ofst'[s].Some?
  {
    AddRow(tab, g, lists[job.state], Lo(g, job.tokens), Hi(g, job.tokens));
    RowDistinct(g, lists[job.state], Lo(g, job.tokens), Hi(g, job.tokens));
    var o := tab.Insert();
    ofst' := ofst[job.state := Some(o)];
    mn' := if o < mn then o else mn;
  }

  /** The packing loop: it stops at the first empty row, after which all rows are empty. */
  method PackRows(g: Sizes, lists: seq<seq<Action>>, order: seq<Job>)
    returns (tab: Acttab, tkn: seq<Option<int>>, nt: seq<Option<int>>, mnTkn: int, mnNt: int)
    requires Input(g, lists) && LargestFirst(g, lists, order)
    ensures fresh(tab) && tab.Valid()
    ensures Located(g, lists, tab.placed, tkn, mnTkn, true) && Located(g, lists, tab.placed, nt, mnNt, false)
    ensures forall s :: 0 <= s < |lists| ==>
      (JobRow(g, lists, s, true) != [] ==> tkn[s].Some?) && (JobRow(g, lists, s, false) != [] ==> nt[s].Some?)
  {
    tab := new Acttab();
    tkn, nt := seq(|lists|, _ => None), seq(|lists|, _ => None);
    mnTkn, mnNt := 0, 0;
    var i := 0;
    while i < |order| && |JobRow(g, lists, order[i].state, order[i].tokens)| > 0
      invariant 0 <= i <= |order| && fresh(tab) && tab.Valid() && tab.aLookahead == []
      invariant Located(g, lists, tab.placed, tkn, mnTkn, true) && Located(g, lists, tab.placed, nt, mnNt, false)
      invariant forall k :: 0 <= k < i ==> (if order[k].tokens then tkn else nt)[order[k].state].Some?
      decreases |order| - i
    {
      if order[i].tokens {
        tkn, mnTkn := Place(tab, g, lists, order[i], tkn, mnTkn, nt, mnNt);
      } else {
        nt, mnNt := Place(tab, g, lists, order[i], nt, mnNt, tkn, mnTkn);
      }
      i := i + 1;
    }
    forall s | 0 <= s < |lists|
      ensures (JobRow(g, lists, s, true) != [] ==> tkn[s].Some?) && (JobRow(g, lists, s, false) != [] ==> nt[s].Some?)
    {
      ProcessedInTime(g, lists, order, i, s, true);
      ProcessedInTime(g, lists, order, i, s, false);
    }
  }

  /** Jobs with a row come before the first job without one. */
  lemma ProcessedInTime(g: Sizes, lists: seq<seq<Action>>, order: seq<Job>, i: nat, s: nat, tokens: bool)
    requires LargestFirst(g, lists, order) && s < |lists| && i <= |order|
    requires i < |order| ==> |JobRow(g, lists, order[i].state, order[i].tokens)| == 0
    ensures JobRow(g, lists, s, tokens) != [] ==> exists k :: 0 <= k < i && order[k] == Job(s, tokens)
  {
    assert Job(s, tokens) in order;
    var k :| 0 <= k < |order| && order[k] == Job(s, tokens);
  }

  function Emit(ofst: seq<Option<int>>, mn: int): Offsets {
    Offsets(seq(|ofst|, s requires 0 <= s < |ofst| => if ofst[s].Some? then ofst[s].value else mn - 1), mn - 1)
  }

  /** ReportTable: the tables of a whole automaton. */
  method ReportTable(g: Sizes, lists: seq<seq<Action>>, order: seq<Job>) returns (t: Packed)
    requires Input(g, lists) && LargestFirst(g, lists, order)
    ensures Shaped(t, g)
    ensures forall s, symbol :: 0 <= s < g.nstate && 0 <= symbol < g.nterminal ==>
      FindAction(t, g, t.shift, s, symbol) == MoveCode(g, MoveOn(lists[s], g.nsymbol, symbol))
    ensures forall s, symbol :: 0 <= s < g.nstate && g.nterminal <= symbol < g.nsymbol ==>
      FindAction(t, g, t.reduce, s, symbol) == MoveCode(g, MoveOn(lists[s], g.nsymbol, symbol))
    ensures forall s :: 0 <= s < g.nstate ==>
      (t.shift.ofst[s] == t.shift.useDflt <==> JobRow(g, lists, s, true) == [])
      && (t.reduce.ofst[s] == t.reduce.useDflt <==> JobRow(g, lists, s, false) == [])
  {
    var tab, tkn, nt, mnTkn, mnNt := PackRows(g, lists, order);
    var a := tab.aAction[..tab.nAction];
    t := Packed(
      seq(|a|, i requires 0 <= i < |a| => if a[i].action < 0 then g.nsymbol + g.nrule + 2 else a[i].action),
      seq(|a|, i requires 0 <= i < |a| => if a[i].lookahead < 0 then g.nsymbol else a[i].lookahead),
      Emit(tkn, mnTkn), Emit(nt, mnNt),
      seq(|lists|, s requires 0 <= s < |lists| => MoveCode(g, MoveOn(lists[s], g.nsymbol, g.nsymbol))));
    forall s, symbol | 0 <= s < g.nstate && 0 <= symbol < g.nterminal
      ensures FindAction(t, g, t.shift, s, symbol) == MoveCode(g, MoveOn(lists[s], g.nsymbol, symbol))
    {
      ReadBack(g, lists, tab.aAction, tab.nAction, tab.placed, tkn, mnTkn, true, t, s, symbol);
    }
    forall s, symbol | 0 <= s < g.nstate && g.nterminal <= symbol < g.nsymbol
      ensures FindAction(t, g, t.reduce, s, symbol) == MoveCode(g, MoveOn(lists[s], g.nsymbol, symbol))
    {
      ReadBack(g, lists, tab.aAction, tab.nAction, tab.placed, nt, mnNt, false, t, s, symbol);
    }
  }

  /** The emitted tables hold the packed entries, with free slots made unmatchable. */
  ghost predicate Emitted(g: Sizes, lists: seq<seq<Action>>, table: seq<Entry>, used: nat, t: Packed) {
    && used <= |table| && |t.action| == |t.lookahead| == used && |t.dflt| == |lists|
    && (forall i :: 0 <= i < used ==>
      && t.lookahead[i] == (if table[i].lookahead < 0 then g.nsymbol else table[i].lookahead)
      && t.action[i] == (if table[i].action < 0 then g.nsymbol + g.nrule + 2 else table[i].action))
    && forall s :: 0 <= s < |lists| ==> t.dflt[s] == MoveCode(g, MoveOn(lists[s], g.nsymbol, g.nsymbol))
  }

  lemma ReadBack(g: Sizes, lists: seq<seq<Action>>, table: seq<Entry>, used: nat, placed: seq<Placement>,
                 ofst: seq<Option<int>>, mn: int, tokens: bool, t: Packed, s: nat, symbol: int)
    requires Input(g, lists) && s < g.nstate && Lo(g, tokens) <= symbol < Hi(g, tokens)
    requires used <= |table| && AllShown(table, used, placed) && Located(g, lists, placed, ofst, mn, tokens)
    requires JobRow(g, lists, s, tokens) != [] ==> ofst[s].Some?
    requires Emitted(g, lists, table, used, t) && Shaped(t, g)
    ensures FindAction(t, g, Emit(ofst, mn), s, symbol) == MoveCode(g, MoveOn(lists[s], g.nsymbol, symbol))
  {
    var row := JobRow(g, lists, s, tokens);
    RowSays(g, lists[s], Lo(g, tokens), Hi(g, tokens), symbol);
    if ofst[s].Some? {
      assert Placement(row, ofst[s].value) in placed;
      SlotRead(g, lists, table, used, row, ofst[s].value, tokens, t, s, symbol);
    }
  }

  /** What the driver finds at the offset of a row. */
  lemma SlotRead(g: Sizes, lists: seq<seq<Action>>, table: seq<Entry>, used: nat, row: seq<Entry>, o: int, tokens: bool,
                 t: Packed, s: nat, symbol: int)
    requires Input(g, lists) && s < g.nstate && Lo(g, tokens) <= symbol < Hi(g, tokens)
    requires used <= |table| && row == JobRow(g, lists, s, tokens) && Shows(table, used, row, o)
    requires Emitted(g, lists, table, used, t)
    ensures var i := o + symbol;
            if 0 <= i < used && t.lookahead[i] == symbol
            then RowFind(row, symbol) == Some(t.action[i]) else RowFind(row, symbol) == None
  {
    ShownRowIsReadBack(table, used, row, o, symbol);
    var i := o + symbol;
    if 0 <= i < used && table[i].lookahead == symbol {
      RowMembers(g, lists[s], Lo(g, tokens), Hi(g, tokens), Entry(symbol, table[i].action));
    }
  }
}
