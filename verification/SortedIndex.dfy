/**
 * The dictionary of array.c as a value: items in the order of their insertion, and an index
 * of their positions in the order of their keys.
 */
module SortedIndex {
  import opened Options
  import opened CaselessOrder
  import opened IndexSearch

  const INT_MAX := 2147483647

  datatype Item<V> = Item(key: seq<Char>, value: V)

  datatype Index<V> = Index(items: seq<Item<V>>, sorted: seq<nat>, np2: nat)

  predicate InRange<V>(ix: Index<V>) {
    |ix.sorted| == |ix.items| && forall i :: 0 <= i < |ix.sorted| ==> ix.sorted[i] < |ix.items|
  }

  /** The keys by rank. */
  function Keys<V>(ix: Index<V>): (keys: seq<seq<Char>>)
    requires InRange(ix)
    ensures |keys| == |ix.items|
  {
    seq(|ix.sorted|, i requires 0 <= i < |ix.sorted| => ix.items[ix.sorted[i]].key)
  }

  /** `sorted` is a permutation of the positions; the stride of a search starts wide enough. */
  ghost predicate WellFormed<V>(ix: Index<V>) {
    InRange(ix) && Permutation(ix.sorted) && Wide(ix)
  }

  /** Each position below the length, once. */
  ghost predicate Permutation(sorted: seq<nat>) {
    && (forall i, j :: 0 <= i < j < |sorted| ==> sorted[i] != sorted[j])
    && forall j :: 0 <= j < |sorted| ==> j in sorted
  }

  predicate Wide<V>(ix: Index<V>) { PowerOf2(ix.np2) && |ix.items| <= ix.np2 }

  function Fresh<V>(): Index<V> { Index([], [], 1) }

  function Find<V>(ix: Index<V>, key: seq<Char>): Outcome
    requires InRange(ix)
  {
    SearchAll(Keys(ix), key, ix.np2)
  }

  /** array_get_element, as the position of the item. */
  function Lookup<V>(ix: Index<V>, key: seq<Char>): (r: Option<nat>)
    requires InRange(ix) && Wide(ix)
    ensures r.Some? ==> r.value < |ix.items| && Compare(key, ix.items[r.value].key) == 0
  {
    StartsInReach(Keys(ix), key, ix.np2);
    match Find(ix, key)
    case Found(t) => Some(ix.sorted[t])
    case Missed(_) => None
  }

  /** The rank at which a key goes in, from the place where the search for it stopped. */
  function InsertRank(keys: seq<seq<Char>>, key: seq<Char>, pos: int): (r: nat)
    requires -1 <= pos <= |keys|
    ensures r <= |keys|
  {
    if pos != |keys| && (pos < 0 || Compare(key, keys[pos]) > 0) then pos + 1 else pos
  }

  function InsertAt<V>(ix: Index<V>, item: Item<V>, r: nat): Index<V>
    requires InRange(ix) && r <= |ix.sorted|
  {
    var ndx := |ix.items|;
    Index(ix.items + [item], ix.sorted[..r] + [ndx] + ix.sorted[r..], if ix.np2 == ndx then 2 * ix.np2 else ix.np2)
  }

  /** array_insert_unique; `dup` merges the value of an item into the one stored already. */
  function Insert<V>(ix: Index<V>, item: Item<V>, dup: (V, V) -> V): Index<V>
    requires InRange(ix) && Wide(ix)
  {
    StartsInReach(Keys(ix), item.key, ix.np2);
    match Find(ix, item.key)
    case Found(t) =>
      var old' := ix.items[ix.sorted[t]];
      ix.(items := ix.items[ix.sorted[t] := Item(old'.key, dup(old'.value, item.value))])
    case Missed(pos) =>
      if |ix.items| + 1 > INT_MAX then ix
      else InsertAt(ix, item, InsertRank(Keys(ix), item.key, pos))
  }

  /** array_replace */
  function Replace<V>(ix: Index<V>, item: Item<V>, dup: (V, V) -> V): Index<V>
    requires InRange(ix) && Wide(ix)
  {
    match Lookup(ix, item.key)
    case Some(j) => ix.(items := ix.items[j := item])
    case None => Insert(ix, item, dup)
  }

  function Reset<V>(ix: Index<V>): Index<V> { ix.(items := [], sorted := []) }

  datatype Op<V> = Ins(item: Item<V>) | Rep(item: Item<V>) | Clear

  function Step<V>(ix: Index<V>, op: Op<V>, dup: (V, V) -> V): Index<V>
    requires InRange(ix) && Wide(ix)
  {
    match op
    case Ins(item) => Insert(ix, item, dup)
    case Rep(item) => Replace(ix, item, dup)
    case Clear => Reset(ix)
  }

  // ----- what every run keeps, whatever the keys -----

  lemma PermutationWith(sorted: seq<nat>, r: nat)
    requires Permutation(sorted) && r <= |sorted| && forall i :: 0 <= i < |sorted| ==> sorted[i] < |sorted|
    ensures Permutation(sorted[..r] + [|sorted|] + sorted[r..])
  {
    var t, n := sorted[..r] + [|sorted|] + sorted[r..], |sorted|;
    forall j | 0 <= j < |t| ensures j in t {
      if j < n {
        assert j in sorted;
        var k :| 0 <= k < n && sorted[k] == j;
        assert t[if k < r then k else k + 1] == j;
      } else {
        assert t[r] == n;
      }
    }
  }

  lemma InsertAtKeeps<V>(ix: Index<V>, item: Item<V>, r: nat)
    requires WellFormed(ix) && r <= |ix.sorted|
    ensures WellFormed(InsertAt(ix, item, r))
    ensures Keys(InsertAt(ix, item, r)) == Keys(ix)[..r] + [item.key] + Keys(ix)[r..]
  {
    PermutationWith(ix.sorted, r);
    assert InsertAt(ix, item, r).np2 / 2 == ix.np2 || InsertAt(ix, item, r).np2 == ix.np2;
  }

  lemma UpdateKeeps<V>(ix: Index<V>, j: nat, item: Item<V>)
    requires WellFormed(ix) && j < |ix.items|
    ensures WellFormed(ix.(items := ix.items[j := item]))
  {
  }

  lemma StepKeeps<V>(ix: Index<V>, op: Op<V>, dup: (V, V) -> V)
    requires WellFormed(ix)
    ensures WellFormed(Step(ix, op, dup))
  {
    if !op.Clear? {
      StartsInReach(Keys(ix), op.item.key, ix.np2);
      match Find(ix, op.item.key)
      case Found(t) =>
        var old' := ix.items[ix.sorted[t]];
        UpdateKeeps(ix, ix.sorted[t], op.item);
        UpdateKeeps(ix, ix.sorted[t], Item(old'.key, dup(old'.value, op.item.value)));
      case Missed(pos) => InsertAtKeeps(ix, op.item, InsertRank(Keys(ix), op.item.key, pos));
    }
  }

  /** The index after a run from an empty array. */
  function Run<V>(ops: seq<Op<V>>, dup: (V, V) -> V): (ix: Index<V>)
    ensures WellFormed(ix)
  {
    if ops == [] then Fresh() else
      var before := Run(ops[..|ops| - 1], dup);
      StepKeeps(before, ops[|ops| - 1], dup);
      Step(before, ops[|ops| - 1], dup)
  }
}
