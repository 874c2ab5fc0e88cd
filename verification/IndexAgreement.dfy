/**
 * When the dictionary of array.c can be trusted: against a reference that scans the items
 * one after the other, its searches are right for every run exactly over the alphabets on
 * which the comparison is an order.
 */
module IndexAgreement {
  import opened Options
  import opened CaselessOrder
  import opened IndexSearch
  import opened SortedIndex

  // ----- the reference -----

  function ScanFrom<V>(items: seq<Item<V>>, key: seq<Char>, i: nat): Option<nat>
    requires i <= |items|
    decreases |items| - i
  {
    if i == |items| then None
    else if Compare(key, items[i].key) == 0 then Some(i)
    else ScanFrom(items, key, i + 1)
  }

  function Scan<V>(items: seq<Item<V>>, key: seq<Char>): (r: Option<nat>)
    ensures r.Some? ==> r.value < |items|
  {
    ScanBound(items, key, 0);
    ScanFrom(items, key, 0)
  }

  lemma {:induction false} ScanBound<V>(items: seq<Item<V>>, key: seq<Char>, i: nat)
    requires i <= |items|
    ensures var r := ScanFrom(items, key, i);
            match r
            case Some(j) => i <= j < |items| && Compare(key, items[j].key) == 0
            case None => forall k :: i <= k < |items| ==> Compare(key, items[k].key) != 0
    decreases |items| - i
  {
    if i < |items| { ScanBound(items, key, i + 1); }
  }

  /** A list with at most one item for a key. */
  function ScanStep<V>(items: seq<Item<V>>, op: Op<V>, dup: (V, V) -> V): seq<Item<V>> {
    if op.Clear? then [] else
      match Scan(items, op.item.key)
      case Some(j) =>
        if op.Rep? then items[j := op.item]
        else items[j := Item(items[j].key, dup(items[j].value, op.item.value))]
      case None => if |items| + 1 > INT_MAX then items else items + [op.item]
  }

  function ScanRun<V>(ops: seq<Op<V>>, dup: (V, V) -> V): seq<Item<V>> {
    if ops == [] then [] else ScanStep(ScanRun(ops[..|ops| - 1], dup), ops[|ops| - 1], dup)
  }

  // ----- agreement -----

  /** A string of the alphabet with its terminator. */
  predicate Text(key: seq<Char>, alphabet: set<Char>) {
    |key| > 0 && key[|key| - 1] == 0 && forall i :: 0 <= i < |key| - 1 ==> key[i] in alphabet
  }

  ghost predicate Texts<V>(ops: seq<Op<V>>, alphabet: set<Char>) {
    forall i :: 0 <= i < |ops| && !ops[i].Clear? ==> Text(ops[i].item.key, alphabet)
  }

  ghost predicate Sound<V>(ix: Index<V>, alphabet: set<Char>) {
    WellFormed(ix) && Ordered(Keys(ix)) && AllOver(Keys(ix), alphabet)
  }

  lemma LookupIsScan<V>(ix: Index<V>, key: seq<Char>, alphabet: set<Char>)
    requires Sound(ix, alphabet) && Orderly(alphabet) && Over(key, alphabet)
    ensures Lookup(ix, key) == Scan(ix.items, key)
  {
    var keys := Keys(ix);
    SearchIsRight(keys, key, ix.np2, alphabet);
    ScanBound(ix.items, key, 0);
    forall j | 0 <= j < |ix.items| && Compare(key, ix.items[j].key) == 0
      ensures Find(ix, key).Found? && ix.sorted[Find(ix, key).rank] == j
    {
      assert j in ix.sorted;
      var u :| 0 <= u < |ix.sorted| && ix.sorted[u] == j;
      assert Compare(key, keys[u]) == 0;
    }
  }

  lemma OrderedInsert(keys: seq<seq<Char>>, key: seq<Char>, r: nat)
    requires Ordered(keys) && Splits(keys, key, r)
    ensures Ordered(keys[..r] + [key] + keys[r..])
  {
    forall t | 0 <= t < r ensures Compare(keys[t], key) < 0 { Antisymmetric(key, keys[t], 0); }
  }

  lemma OrderedUpdate(keys: seq<seq<Char>>, key: seq<Char>, t: nat)
    requires Ordered(keys) && Sits(keys, key, t)
    ensures Ordered(keys[t := key])
  {
    forall u | 0 <= u < t ensures Compare(keys[u], key) < 0 { Antisymmetric(key, keys[u], 0); }
  }

  lemma KeysOfUpdate<V>(ix: Index<V>, t: nat, item: Item<V>)
    requires WellFormed(ix) && t < |ix.sorted|
    ensures WellFormed(ix.(items := ix.items[ix.sorted[t] := item]))
    ensures Keys(ix.(items := ix.items[ix.sorted[t] := item])) == Keys(ix)[t := item.key]
  {
    UpdateKeeps(ix, ix.sorted[t], item);
  }

  lemma InsertKeepsSound<V>(ix: Index<V>, item: Item<V>, dup: (V, V) -> V, alphabet: set<Char>)
    requires Sound(ix, alphabet) && Orderly(alphabet) && Over(item.key, alphabet)
    ensures Sound(Insert(ix, item, dup), alphabet)
  {
    var keys := Keys(ix);
    SearchIsRight(keys, item.key, ix.np2, alphabet);
    StartsInReach(keys, item.key, ix.np2);
    match Find(ix, item.key)
    case Found(t) =>
      var old' := ix.items[ix.sorted[t]];
      KeysOfUpdate(ix, t, Item(old'.key, dup(old'.value, item.value)));
      assert keys[t := old'.key] == keys;
    case Missed(pos) =>
      var r: nat :| pos <= r <= pos + 1 && Splits(keys, item.key, r);
      assert InsertRank(keys, item.key, pos) == r;
      InsertAtKeepsSound(ix, item, r, alphabet);
  }

  lemma InsertAtKeepsSound<V>(ix: Index<V>, item: Item<V>, r: nat, alphabet: set<Char>)
    requires Sound(ix, alphabet) && Over(item.key, alphabet) && Splits(Keys(ix), item.key, r)
    ensures Sound(InsertAt(ix, item, r), alphabet)
  {
    InsertAtKeeps(ix, item, r);
    OrderedInsert(Keys(ix), item.key, r);
  }

  lemma ReplaceKeepsSound<V>(ix: Index<V>, item: Item<V>, dup: (V, V) -> V, alphabet: set<Char>)
    requires Sound(ix, alphabet) && Orderly(alphabet) && Over(item.key, alphabet)
    ensures Sound(Replace(ix, item, dup), alphabet)
  {
    var keys := Keys(ix);
    SearchIsRight(keys, item.key, ix.np2, alphabet);
    match Find(ix, item.key)
    case Found(t) =>
      KeysOfUpdate(ix, t, item);
      OrderedUpdate(keys, item.key, t);
    case Missed(_) => InsertKeepsSound(ix, item, dup, alphabet);
  }

  lemma StepAgrees<V>(ix: Index<V>, op: Op<V>, dup: (V, V) -> V, alphabet: set<Char>)
    requires Sound(ix, alphabet) && Orderly(alphabet) && (!op.Clear? ==> Over(op.item.key, alphabet))
    ensures Sound(Step(ix, op, dup), alphabet)
    ensures Step(ix, op, dup).items == ScanStep(ix.items, op, dup)
  {
    if !op.Clear? {
      LookupIsScan(ix, op.item.key, alphabet);
      InsertKeepsSound(ix, op.item, dup, alphabet);
      ReplaceKeepsSound(ix, op.item, dup, alphabet);
    }
  }

  lemma {:induction false} RunAgrees<V>(ops: seq<Op<V>>, dup: (V, V) -> V, alphabet: set<Char>)
    requires Orderly(alphabet) && 0 in alphabet && Texts(ops, alphabet)
    ensures Sound(Run(ops, dup), alphabet) && Run(ops, dup).items == ScanRun(ops, dup)
  {
    if ops != [] {
      var n := |ops| - 1;
      RunAgrees(ops[..n], dup, alphabet);
      assert !ops[n].Clear? ==> Over(ops[n].item.key, alphabet);
      StepAgrees(Run(ops[..n], dup), ops[n], dup, alphabet);
    }
  }

  /** Over an orderly alphabet, every run of insert, replace and reset leaves the items the
      reference has, and a lookup finds a key exactly if the reference does. */
  lemma AgreesWithReference<V>(ops: seq<Op<V>>, dup: (V, V) -> V, key: seq<Char>, alphabet: set<Char>)
    requires Orderly(alphabet) && Texts(ops, alphabet) && Text(key, alphabet)
    ensures Run(ops, dup).items == ScanRun(ops, dup) && Lookup(Run(ops, dup), key) == Scan(ScanRun(ops, dup), key)
    ensures Ordered(Keys(Run(ops, dup)))
  {
    var chars := WithTerminator(ops, key, alphabet);
    RunAgrees(ops, dup, chars);
    LookupIsScan(Run(ops, dup), key, chars);
  }

  /** The terminator is no letter and stands between no letters. */
  lemma WithTerminator<V>(ops: seq<Op<V>>, key: seq<Char>, alphabet: set<Char>) returns (chars: set<Char>)
    requires Orderly(alphabet) && Texts(ops, alphabet) && Text(key, alphabet)
    ensures Orderly(chars) && 0 in chars && Texts(ops, chars) && Over(key, chars)
  {
    chars := alphabet + {0};
    forall i | 0 <= i < |ops| && !ops[i].Clear? ensures Text(ops[i].item.key, chars) {
      assert Text(ops[i].item.key, alphabet);
    }
  }

  // ----- and over no other -----

  ghost predicate Trusted<V(!new)>(alphabet: set<Char>, dup: (V, V) -> V) {
    forall ops: seq<Op<V>>, key :: Texts(ops, alphabet) && Text(key, alphabet) ==> FindsRight(ops, key, dup)
  }

  ghost predicate FindsRight<V>(ops: seq<Op<V>>, key: seq<Char>, dup: (V, V) -> V) {
    Lookup(Run(ops, dup), key) == Scan(Run(ops, dup).items, key)
  }

  lemma RunOne<V>(ops: seq<Op<V>>, op: Op<V>, dup: (V, V) -> V)
    ensures Run(ops + [op], dup) == Step(Run(ops, dup), op, dup)
  {
    assert (ops + [op])[..|ops|] == ops;
  }

  /** Two insertions, the second key being the larger one. */
  lemma TwoInserts<V>(a: Item<V>, b: Item<V>, dup: (V, V) -> V)
    requires Compare(b.key, a.key) > 0
    ensures Run([Ins(a), Ins(b)], dup) == Index([a, b], [0, 1], 2)
  {
    RunOne([], Ins(a), dup);
    assert [] + [Ins(a)] == [Ins(a)];
    assert Insert(Fresh(), a, dup) == Index([a], [0], 1);
    RunOne([Ins(a)], Ins(b), dup);
    assert [Ins(a)] + [Ins(b)] == [Ins(a), Ins(b)];
    SecondInsert(a, b, dup);
  }

  lemma SecondInsert<V>(a: Item<V>, b: Item<V>, dup: (V, V) -> V)
    requires Compare(b.key, a.key) > 0
    ensures Insert(Index([a], [0], 1), b, dup) == Index([a, b], [0, 1], 2)
  {
    assert Keys(Index([a], [0], 1)) == [a.key];
  }

  lemma MissesLower<V>(a: Item<V>, b: Item<V>, key: seq<Char>)
    requires Compare(key, b.key) > 0
    ensures var ix := Index([a, b], [0, 1], 2); InRange(ix) && Find(ix, key) == Missed(2)
  {
    var ix := Index([a, b], [0, 1], 2);
    assert Keys(ix) == [a.key, b.key];
    assert Search(Keys(ix), key, 2, 0) == Missed(2);
  }

  lemma MissesFirst<V>(a: Item<V>, b: Item<V>, c: Item<V>, key: seq<Char>)
    requires Compare(key, c.key) > 0
    ensures var ix := Index([a, b, c], [0, 1, 2], 4); InRange(ix) && Find(ix, key) == Missed(3)
  {
    var ix := Index([a, b, c], [0, 1, 2], 4);
    assert Keys(ix) == [a.key, b.key, c.key];
    assert Search(Keys(ix), key, 3, 0) == Missed(3);
    assert Search(Keys(ix), key, 4, 1) == Missed(3);
  }

  lemma OneLetter(a: Char, b: Char)
    requires a != 0 && b != 0
    ensures Compare([a, 0], [b, 0]) == CharDiff(a, b)
  {
    assert CompareFrom([a, 0], [b, 0], 2) == 0;
    assert CompareFrom([a, 0], [b, 0], 1) == 0;
  }

  /** X and z stored, y equal to X: y is not found. */
  lemma EqualClash<V>(a: Item<V>, b: Item<V>, key: seq<Char>, dup: (V, V) -> V)
    requires Compare(b.key, a.key) > 0 && Compare(key, b.key) > 0 && Compare(key, a.key) == 0
    ensures !FindsRight([Ins(a), Ins(b)], key, dup)
  {
    TwoInserts(a, b, dup);
    MissesLower(a, b, key);
    assert Scan([a, b], key) == Some(0);
  }

  /** X, z and y stored, y before X: X is not found. */
  lemma CycleClash<V>(a: Item<V>, b: Item<V>, c: Item<V>, dup: (V, V) -> V)
    requires Compare(b.key, a.key) > 0 && Compare(c.key, b.key) > 0 && Compare(a.key, c.key) > 0
    ensures !FindsRight([Ins(a), Ins(b), Ins(c)], a.key, dup)
  {
    TwoInserts(a, b, dup);
    MissesLower(a, b, c.key);
    RunOne([Ins(a), Ins(b)], Ins(c), dup);
    assert [Ins(a), Ins(b)] + [Ins(c)] == [Ins(a), Ins(b), Ins(c)];
    assert Insert(Index([a, b], [0, 1], 2), c, dup) == Index([a, b, c], [0, 1, 2], 4);
    MissesFirst(a, b, c, a.key);
    EqualIffFolded(a.key, a.key);
    assert Scan([a, b, c], a.key) == Some(0);
  }

  /** Keys X before z before y, but y not after X: the index loses one. */
  lemma ClashingKeys<V>(x: seq<Char>, z: seq<Char>, y: seq<Char>, alphabet: set<Char>, dup: (V, V) -> V, v: V)
    returns (ops: seq<Op<V>>, key: seq<Char>)
    requires Text(x, alphabet) && Text(z, alphabet) && Text(y, alphabet)
    requires Compare(z, x) > 0 && Compare(y, z) > 0 && (Compare(y, x) == 0 || Compare(x, y) > 0)
    ensures Texts(ops, alphabet) && Text(key, alphabet) && !FindsRight(ops, key, dup)
  {
    var a, b, c := Item(x, v), Item(z, v), Item(y, v);
    if Compare(y, x) == 0 {
      EqualClash(a, b, y, dup);
      ops, key := [Ins(a), Ins(b)], y;
    } else {
      CycleClash(a, b, c, dup);
      ops, key := [Ins(a), Ins(b), Ins(c)], x;
    }
  }

  /** With characters that clash, keys of one character are enough. */
  lemma ClashLosesAKey<V>(x: Char, z: Char, y: Char, alphabet: set<Char>, dup: (V, V) -> V, v: V)
    returns (ops: seq<Op<V>>, key: seq<Char>)
    requires Clash(x, z, y) && x in alphabet && z in alphabet && y in alphabet
    ensures Texts(ops, alphabet) && Text(key, alphabet) && !FindsRight(ops, key, dup)
  {
    OneLetter(z, x);
    OneLetter(y, z);
    OneLetter(y, x);
    OneLetter(x, y);
    ops, key := ClashingKeys([x, 0], [z, 0], [y, 0], alphabet, dup, v);
  }

  /** Searches are right after every run over an alphabet exactly if the alphabet is orderly. */
  lemma TrustedIffOrderly<V(!new)>(alphabet: set<Char>, dup: (V, V) -> V, v: V)
    ensures Trusted(alphabet, dup) <==> Orderly(alphabet)
  {
    if Orderly(alphabet) {
      forall ops: seq<Op<V>>, key | Texts(ops, alphabet) && Text(key, alphabet)
        ensures FindsRight(ops, key, dup)
      {
        AgreesWithReference(ops, dup, key, alphabet);
      }
    } else {
      var x, z, y :| x in alphabet && z in alphabet && y in alphabet && Clash(x, z, y);
      var ops, key := ClashLosesAKey(x, z, y, alphabet, dup, v);
    }
  }
}
