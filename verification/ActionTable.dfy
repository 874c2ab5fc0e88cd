/**
 * LEMON's "acttab" module (lemon.c): many sparse rows of parser actions share one
 * array.  `Insert` slides a new row over the used part of the array until its
 * entries fall into empty slots, or coincide with a row stored before; the parser
 * driver reads an entry back at `offset + lookahead` and trusts it only when the
 * lookahead stored beside it is the one it asked for.
 */
module ActionTable {
  import opened Options

  datatype Entry = Entry(lookahead: int, action: int)

  const EMPTY := Entry(-1, -1)

  /** A row already stored, with the offset `Insert` returned for it. */
  datatype Placement = Placement(row: seq<Entry>, offset: int)

  /** What a row says about a lookahead, independently of where it is stored. */
  function RowFind(row: seq<Entry>, lookahead: int): (r: Option<int>)
    ensures r.Some? ==> Entry(lookahead, r.value) in row
    ensures r.None? ==> forall e :: e in row ==> e.lookahead != lookahead
  {
    if row == [] then None
    else if row[0].lookahead == lookahead then Some(row[0].action)
    else RowFind(row[1..], lookahead)
  }

  /** The driver's reading of the table: index `offset + lookahead`, checked. */
  function TableFind(table: seq<Entry>, used: nat, offset: int, lookahead: int): Option<int>
    requires used <= |table|
  {
    var i := offset + lookahead;
    if 0 <= i < used && table[i].lookahead == lookahead then Some(table[i].action) else None
  }

  ghost predicate DistinctLookaheads(row: seq<Entry>) {
    && (forall i :: 0 <= i < |row| ==> row[i].lookahead >= 0)
    && forall i, j :: 0 <= i < j < |row| ==> row[i].lookahead != row[j].lookahead
  }

  /** Every slot is either empty or holds a non-negative lookahead. */
  ghost predicate WellFormed(table: seq<Entry>, used: nat) {
    && used <= |table|
    && (forall k :: used <= k < |table| ==> table[k] == EMPTY)
    && forall k :: 0 <= k < used && table[k].lookahead < 0 ==> table[k] == EMPTY
  }

  /** A reader at `offset` accepts the entry stored in slot `k`. */
  predicate Seen(e: Entry, k: int, offset: int) {
    e.lookahead >= 0 && e.lookahead == k - offset
  }

  predicate Holds(table: seq<Entry>, used: nat, k: int, e: Entry)
    requires used <= |table|
  {
    0 <= k < used && table[k] == e
  }

  /** The slots visible at `offset` are exactly the entries of `row`. */
  ghost predicate Shows(table: seq<Entry>, used: nat, row: seq<Entry>, offset: int)
    requires used <= |table|
  {
    && (forall i :: 0 <= i < |row| ==> Holds(table, used, offset + row[i].lookahead, row[i]))
    && forall k {:trigger Seen(table[k], k, offset)} :: 0 <= k < used && Seen(table[k], k, offset) ==> table[k] in row
  }

  /** A row that is shown is read back by the driver, hits and misses alike. */
  lemma ShownRowIsReadBack(table: seq<Entry>, used: nat, row: seq<Entry>, offset: int, lookahead: int)
    requires used <= |table| && lookahead >= 0
    requires Shows(table, used, row, offset)
    ensures TableFind(table, used, offset, lookahead) == RowFind(row, lookahead)
  {
    var i := offset + lookahead;
    match RowFind(row, lookahead)
    case Some(a) =>
      var m :| 0 <= m < |row| && row[m] == Entry(lookahead, a);
      assert Holds(table, used, offset + row[m].lookahead, row[m]);
    case None =>
      assert 0 <= i < used && Seen(table[i], i, offset) ==> table[i] in row;
  }

  /** Two rows share an offset only if they hold the same entries. */
  lemma SharedOffsetMeansSameRow(table: seq<Entry>, used: nat, r1: seq<Entry>, r2: seq<Entry>, offset: int)
    requires used <= |table|
    requires DistinctLookaheads(r1) && DistinctLookaheads(r2)
    requires Shows(table, used, r1, offset) && Shows(table, used, r2, offset)
    ensures forall e :: e in r1 <==> e in r2
  {
    forall i | 0 <= i < |r1| ensures r1[i] in r2 {
      var k := offset + r1[i].lookahead;
      assert Holds(table, used, k, r1[i]) && Seen(table[k], k, offset);
    }
    forall i | 0 <= i < |r2| ensures r2[i] in r1 {
      var k := offset + r2[i].lookahead;
      assert Holds(table, used, k, r2[i]) && Seen(table[k], k, offset);
    }
  }

  /** Number of used slots that a reader at `offset` would accept. */
  function VisibleCount(table: seq<Entry>, used: nat, offset: int): nat
    requires used <= |table|
  {
    if used == 0 then 0
    else VisibleCount(table, used - 1, offset)
         + if Seen(table[used - 1], used - 1, offset) then 1 else 0
  }

  ghost function Visible(table: seq<Entry>, used: nat, offset: int): set<int>
    requires used <= |table|
  {
    set k | 0 <= k < used && Seen(table[k], k, offset)
  }

  lemma {:induction false} VisibleCountIsCardinality(table: seq<Entry>, used: nat, offset: int)
    requires used <= |table|
    ensures VisibleCount(table, used, offset) == |Visible(table, used, offset)|
  {
    if used > 0 {
      VisibleCountIsCardinality(table, used - 1, offset);
      var v := Visible(table, used - 1, offset);
      if Seen(table[used - 1], used - 1, offset) {
        assert Visible(table, used, offset) == v + {used - 1};
      } else {
        assert Visible(table, used, offset) == v;
      }
    }
  }

  /** A list of `|v|` distinct members of `v` misses none of them. */
  lemma {:induction false} DistinctMembersExhaust(ks: seq<int>, v: set<int>)
    requires forall i, j :: 0 <= i < j < |ks| ==> ks[i] != ks[j]
    requires forall i :: 0 <= i < |ks| ==> ks[i] in v
    requires |ks| == |v|
    ensures forall k :: k in v ==> k in ks
  {
    if ks != [] {
      var n := |ks| - 1;
      DistinctMembersExhaust(ks[..n], v - {ks[n]});
      assert ks == ks[..n] + [ks[n]];
    }
  }

  /** The counting test of the "same as a prior row" case leaves no foreign entry visible. */
  lemma EqualCountsMeanNoForeignEntry(table: seq<Entry>, used: nat, row: seq<Entry>, offset: int)
    requires used <= |table| && DistinctLookaheads(row)
    requires forall i :: 0 <= i < |row| ==> Holds(table, used, offset + row[i].lookahead, row[i])
    requires VisibleCount(table, used, offset) == |row|
    ensures Shows(table, used, row, offset)
  {
    var v := Visible(table, used, offset);
    var ks := seq(|row|, i requires 0 <= i < |row| => offset + row[i].lookahead);
    VisibleCountIsCardinality(table, used, offset);
    forall i | 0 <= i < |ks| ensures ks[i] in v {
      assert Holds(table, used, offset + row[i].lookahead, row[i]);
    }
    DistinctMembersExhaust(ks, v);
    forall k | k in v ensures table[k] in row {
      var i :| 0 <= i < |ks| && ks[i] == k;
      assert Holds(table, used, offset + row[i].lookahead, row[i]);
    }
  }

  predicate Vacant(table: seq<Entry>, k: int) {
    0 <= k < |table| && table[k].lookahead < 0
  }

  /** `row` with its smallest lookahead `mn` placed at index `i` only meets empty slots,
      and no slot already in use becomes visible at the new offset. */
  ghost predicate Fits(table: seq<Entry>, used: nat, row: seq<Entry>, offset: int)
    requires used <= |table|
  {
    && (forall i :: 0 <= i < |row| ==> Vacant(table, offset + row[i].lookahead))
    && forall j {:trigger Seen(table[j], j, offset)} :: 0 <= j < used ==> !Seen(table[j], j, offset)
  }

  predicate Written(e: Entry, row: seq<Entry>, k: int, offset: int) {
    e in row && k == offset + e.lookahead
  }

  /** The table after the first `n` entries of `row` were written at `offset`. */
  ghost predicate Overlaid(table: seq<Entry>, table': seq<Entry>, row: seq<Entry>, n: nat, offset: int)
    requires n <= |row|
  {
    && |table'| == |table|
    && (forall i :: 0 <= i < n ==> Holds(table', |table'|, offset + row[i].lookahead, row[i]))
    && forall k :: 0 <= k < |table| ==> table'[k] == table[k] || Written(table'[k], row, k, offset)
  }

  lemma OverlayStep(table: seq<Entry>, prev: seq<Entry>, used: nat, row: seq<Entry>, n: nat, offset: int)
    requires n < |row| && DistinctLookaheads(row) && Overlaid(table, prev, row, n, offset)
    requires 0 <= offset + row[n].lookahead < |prev| && WellFormed(prev, used)
    ensures var k := offset + row[n].lookahead;
            var next := prev[k := row[n]];
            Overlaid(table, next, row, n + 1, offset) && WellFormed(next, if k >= used then k + 1 else used)
  {
    var next := prev[offset + row[n].lookahead := row[n]];
    forall i | 0 <= i < n + 1 ensures Holds(next, |next|, offset + row[i].lookahead, row[i]) {
      assert i < n ==> Holds(prev, |prev|, offset + row[i].lookahead, row[i]);
    }
  }

  /** Writing a row over its own copy changes nothing. */
  lemma OverlayOfShownRow(table: seq<Entry>, used: nat, table': seq<Entry>, row: seq<Entry>, offset: int)
    requires used <= |table| && Shows(table, used, row, offset) && Overlaid(table, table', row, |row|, offset)
    ensures table' == table
  {
    forall k | 0 <= k < |table| ensures table'[k] == table[k] {
      if table'[k] in row && k == offset + table'[k].lookahead {
        var m :| 0 <= m < |row| && row[m] == table'[k];
        assert Holds(table, used, offset + row[m].lookahead, row[m]);
      }
    }
  }

  /** Writing a fitting row shows it and hides nothing that was shown before. */
  lemma FittingRowIsShown(table: seq<Entry>, used: nat, table': seq<Entry>, used': nat, row: seq<Entry>, offset: int)
    requires WellFormed(table, used) && WellFormed(table', used') && used <= used'
    requires DistinctLookaheads(row) && Fits(table, used, row, offset)
    requires Overlaid(table, table', row, |row|, offset)
    requires forall i :: 0 <= i < |row| ==> offset + row[i].lookahead < used'
    ensures Shows(table', used', row, offset)
  {
    forall i | 0 <= i < |row| ensures Holds(table', used', offset + row[i].lookahead, row[i]) {
      assert Holds(table', |table'|, offset + row[i].lookahead, row[i]);
    }
    forall k | 0 <= k < used' && Seen(table'[k], k, offset) ensures table'[k] in row {
      assert k < used ==> !Seen(table[k], k, offset);
      assert k >= used ==> table[k] == EMPTY;
    }
  }

  lemma FittingRowKeepsOthers(table: seq<Entry>, used: nat, table': seq<Entry>, used': nat, row: seq<Entry>,
                              offset: int, p: Placement)
    requires WellFormed(table, used) && WellFormed(table', used') && used <= used'
    requires DistinctLookaheads(row) && Fits(table, used, row, offset)
    requires Overlaid(table, table', row, |row|, offset)
    requires DistinctLookaheads(p.row) && p.row != [] && Shows(table, used, p.row, p.offset)
    ensures Shows(table', used', p.row, p.offset)
  {
    // the old row is visible at its own offset, so the new offset must differ
    assert Holds(table, used, p.offset + p.row[0].lookahead, p.row[0]);
    assert Seen(p.row[0], p.offset + p.row[0].lookahead, p.offset);
    assert p.offset != offset;
    forall i | 0 <= i < |p.row| ensures Holds(table', used', p.offset + p.row[i].lookahead, p.row[i]) {
      var k := p.offset + p.row[i].lookahead;
      assert Holds(table, used, k, p.row[i]);
      forall m | 0 <= m < |row| ensures offset + row[m].lookahead != k {
        assert Vacant(table, offset + row[m].lookahead);
      }
    }
    forall k | 0 <= k < used' && Seen(table'[k], k, p.offset) ensures table'[k] in p.row {
      assert table'[k] == table[k];
      assert k < used && Seen(table[k], k, p.offset);
    }
  }

  ghost predicate AllShown(table: seq<Entry>, used: nat, placed: seq<Placement>)
    requires used <= |table|
  {
    forall p :: p in placed ==>
      DistinctLookaheads(p.row) && p.row != [] && Shows(table, used, p.row, p.offset)
  }

  /** Both ways out of the search loop keep every stored row readable. */
  lemma WrittenRowIsShown(table: seq<Entry>, used: nat, table': seq<Entry>, used': nat, row: seq<Entry>,
                          offset: int, shared: bool, placed: seq<Placement>)
    requires WellFormed(table, used) && WellFormed(table', used') && used <= used'
    requires DistinctLookaheads(row) && Overlaid(table, table', row, |row|, offset)
    requires forall i :: 0 <= i < |row| ==> offset + row[i].lookahead < used'
    requires if shared then Shows(table, used, row, offset) && used' == used else Fits(table, used, row, offset)
    requires AllShown(table, used, placed)
    ensures Shows(table', used', row, offset) && AllShown(table', used', placed)
  {
    if shared {
      OverlayOfShownRow(table, used, table', row, offset);
    } else {
      FittingRowIsShown(table, used, table', used', row, offset);
      forall p | p in placed ensures Shows(table', used', p.row, p.offset) {
        FittingRowKeepsOthers(table, used, table', used', row, offset, p);
      }
    }
  }

  /** The yy_action[] table under construction. */
  class Acttab {
    var nAction: nat               // used slots of aAction
    var aAction: seq<Entry>        // every allocated slot
    var aLookahead: seq<Entry>     // the row being collected
    var mnLookahead: int
    var mnAction: int
    var mxLookahead: int
    ghost var placed: seq<Placement>

    ghost predicate Valid()
      reads this
    {
      && WellFormed(aAction, nAction)
      && (forall m :: 0 <= m < |aLookahead| ==> mnLookahead <= aLookahead[m].lookahead <= mxLookahead)
      && (aLookahead != [] ==> Entry(mnLookahead, mnAction) in aLookahead)
      && AllShown(aAction, nAction, placed)
    }

    constructor ()
      ensures Valid() && placed == [] && aLookahead == [] && nAction == 0
    {
      nAction, aAction, aLookahead := 0, [], [];
      mnLookahead, mnAction, mxLookahead := 0, 0, 0;
      placed := [];
    }

    /** acttab_action: add one entry to the row being collected. */
    method Action(lookahead: int, action: int)
      requires Valid()
      modifies this
      ensures Valid()
      ensures aLookahead == old(aLookahead) + [Entry(lookahead, action)]
      ensures placed == old(placed) && aAction == old(aAction) && nAction == old(nAction)
    {
      if |aLookahead| == 0 {
        mxLookahead, mnLookahead, mnAction := lookahead, lookahead, action;
      } else {
        if mxLookahead < lookahead { mxLookahead := lookahead; }
        if mnLookahead > lookahead { mnLookahead, mnAction := lookahead, action; }
      }
      aLookahead := aLookahead + [Entry(lookahead, action)];
    }

    /** Make room for the worst case, in which the row is appended. */
    method Reserve()
      requires Valid() && aLookahead != []
      modifies this`aAction
      ensures Valid()
      ensures nAction + mxLookahead + 1 < |aAction|
    {
      var n := mxLookahead + 1;
      if nAction + n >= |aAction| {
        ghost var before := aAction;
        var grow := nAction + n + 20;
        aAction := aAction + seq(grow, _ => EMPTY);
        assert forall k :: 0 <= k < |before| ==> aAction[k] == before[k];
        forall p | p in placed ensures Shows(aAction, nAction, p.row, p.offset) {
          assert Shows(before, nAction, p.row, p.offset);
        }
      }
    }

    /** The scan of an empty slot `i`: does the whole row fit here? */
    method FitsAt(i: nat) returns (ok: bool)
      requires Valid() && DistinctLookaheads(aLookahead) && aLookahead != []
      requires i < nAction + mnLookahead && nAction + mxLookahead + 1 < |aAction|
      ensures ok ==> Fits(aAction, nAction, aLookahead, i - mnLookahead)
    {
      ghost var offset := i - mnLookahead;
      var j := 0;
      while j < |aLookahead|
        invariant 0 <= j <= |aLookahead|
        invariant forall m :: 0 <= m < j ==> Vacant(aAction, offset + aLookahead[m].lookahead)
      {
        var k := aLookahead[j].lookahead - mnLookahead + i;
        if k < 0 || aAction[k].lookahead >= 0 { return false; }
        j := j + 1;
      }
      j := 0;
      while j < nAction
        invariant 0 <= j <= nAction
        invariant forall m :: 0 <= m < j ==> !Seen(aAction[m], m, offset)
      {
        if aAction[j].lookahead == j + mnLookahead - i { return false; }
        j := j + 1;
      }
      ok := true;
    }

    /** The scan of a slot that already holds the smallest entry: is the whole row here? */
    method SameAt(i: nat) returns (ok: bool)
      requires Valid() && DistinctLookaheads(aLookahead) && aLookahead != []
      requires i < |aAction|
      ensures ok ==> Shows(aAction, nAction, aLookahead, i - mnLookahead)
    {
      var offset := i - mnLookahead;
      var j := 0;
      while j < |aLookahead|
        invariant 0 <= j <= |aLookahead|
        invariant forall m :: 0 <= m < j ==> Holds(aAction, nAction, offset + aLookahead[m].lookahead, aLookahead[m])
      {
        var k := aLookahead[j].lookahead - mnLookahead + i;
        if k < 0 || k >= nAction { return false; }
        if aLookahead[j].lookahead != aAction[k].lookahead { return false; }
        if aLookahead[j].action != aAction[k].action { return false; }
        j := j + 1;
      }
      var n := 0;
      j := 0;
      while j < nAction
        invariant 0 <= j <= nAction
        invariant n == VisibleCount(aAction, j, offset)
      {
        if Seen(aAction[j], j, offset) { n := n + 1; }
        j := j + 1;
      }
      ok := n == |aLookahead|;
      if ok {
        EqualCountsMeanNoForeignEntry(aAction, nAction, aLookahead, offset);
      }
    }

    /** The search loop: the index that receives the smallest lookahead. */
    method FindIndex() returns (i: nat, ghost shared: bool)
      requires Valid() && DistinctLookaheads(aLookahead) && aLookahead != []
      requires nAction + mxLookahead + 1 < |aAction|
      ensures i <= nAction + mnLookahead
      ensures !shared ==> Fits(aAction, nAction, aLookahead, i - mnLookahead)
      ensures shared ==> Shows(aAction, nAction, aLookahead, i - mnLookahead)
      ensures shared ==> forall m :: 0 <= m < |aLookahead| ==> i - mnLookahead + aLookahead[m].lookahead < nAction
    {
      assert Entry(mnLookahead, mnAction) in aLookahead;
      i, shared := 0, false;
      while i < nAction + mnLookahead
        invariant 0 <= i <= nAction + mnLookahead && !shared
      {
        if aAction[i].lookahead < 0 {
          var ok := FitsAt(i);
          if ok { return; }
        } else if aAction[i].lookahead == mnLookahead && aAction[i].action == mnAction {
          var ok := SameAt(i);
          if ok {
            shared := true;
            return;
          }
        }
        i := i + 1;
      }
      assert Fits(aAction, nAction, aLookahead, nAction);
    }

    /** The final loop: copy the row into the table. */
    static method Write(row: seq<Entry>, table: seq<Entry>, used: nat, offset: int)
      returns (table': seq<Entry>, used': nat)
      requires WellFormed(table, used) && DistinctLookaheads(row)
      requires forall m :: 0 <= m < |row| ==> 0 <= offset + row[m].lookahead < |table|
      ensures WellFormed(table', used') && used <= used' && Overlaid(table, table', row, |row|, offset)
      ensures forall m :: 0 <= m < |row| ==> offset + row[m].lookahead < used'
      ensures (forall m :: 0 <= m < |row| ==> offset + row[m].lookahead < used) ==> used' == used
    {
      table', used' := table, used;
      var j := 0;
      while j < |row|
        invariant 0 <= j <= |row|
        invariant used <= used' && WellFormed(table', used') && Overlaid(table, table', row, j, offset)
        invariant forall m :: 0 <= m < j ==> offset + row[m].lookahead < used'
        invariant (forall m :: 0 <= m < |row| ==> offset + row[m].lookahead < used) ==> used' == used
      {
        var k := offset + row[j].lookahead;
        OverlayStep(table, table', used', row, j, offset);
        table' := table'[k := row[j]];
        if k >= used' { used' := k + 1; }
        j := j + 1;
      }
    }

    /** Writes the collected row; rows stored earlier stay visible. */
    method Store(offset: int, ghost shared: bool)
      requires Valid() && DistinctLookaheads(aLookahead) && aLookahead != []
      requires forall m :: 0 <= m < |aLookahead| ==>
        0 <= offset + aLookahead[m].lookahead < if shared then nAction else |aAction|
      requires if shared then Shows(aAction, nAction, aLookahead, offset)
        else Fits(aAction, nAction, aLookahead, offset)
      modifies this`aAction, this`nAction
      ensures Valid() && Shows(aAction, nAction, aLookahead, offset)
    {
      ghost var table, used := aAction, nAction;
      aAction, nAction := Write(aLookahead, aAction, nAction, offset);
      WrittenRowIsShown(table, used, aAction, nAction, aLookahead, offset, shared, placed);
    }

    /** acttab_insert: store the collected row and return its offset.  `Valid` carries the
        main guarantee: every row ever stored is still shown at the offset it was given. */
    method Insert() returns (offset: int)
      requires Valid() && aLookahead != [] && DistinctLookaheads(aLookahead)
      modifies this
      ensures Valid() && aLookahead == []
      ensures placed == old(placed) + [Placement(old(aLookahead), offset)]
    {
      Reserve();
      var i, shared := FindIndex();
      offset := i - mnLookahead;
      Store(offset, shared);
      placed := placed + [Placement(aLookahead, offset)];
      aLookahead := [];
    }
  }
}
