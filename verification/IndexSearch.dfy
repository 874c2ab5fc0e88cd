/**
 * The search of array_get_index (array.c).  It starts in the middle of the next power of two
 * and halves its stride, stepping over the ends of the index without comparing there.
 */
module IndexSearch {
  import opened CaselessOrder

  datatype Outcome = Found(rank: nat) | Missed(pos: int)

  /** The direction to go at a position: right, left, or 0 for a hit. */
  function Probe(keys: seq<seq<Char>>, key: seq<Char>, pos: int): int {
    if pos < 0 then 1 else if pos >= |keys| then -1 else Compare(key, keys[pos])
  }

  function Search(keys: seq<seq<Char>>, key: seq<Char>, pos: int, i: nat): Outcome
    decreases i
  {
    var d := Probe(keys, key, pos);
    if d == 0 then Found(pos) else
      var next := if d < 0 then pos - i else pos + i;
      if i == 0 then Missed(next) else Search(keys, key, next, i / 2)
  }

  predicate PowerOf2(n: nat) {
    n == 1 || (n != 0 && n % 2 == 0 && PowerOf2(n / 2))
  }

  /** How far the search can still go from here. */
  function Reach(i: nat): nat { if i == 0 then 1 else 2 * i }

  predicate Stride(i: nat) { i == 0 || PowerOf2(i) }

  /** Whatever the order of the keys, a search stays within one place of the index. */
  lemma {:induction false} SearchBounds(keys: seq<seq<Char>>, key: seq<Char>, pos: int, i: nat)
    requires Stride(i) && pos - Reach(i) + 1 <= |keys| && pos + Reach(i) >= 0
    ensures match Search(keys, key, pos, i)
            case Found(t) => t < |keys| && Compare(key, keys[t]) == 0
            case Missed(p) => -1 <= p <= |keys|
    decreases i
  {
    var d := Probe(keys, key, pos);
    if d != 0 && i != 0 {
      SearchBounds(keys, key, if d < 0 then pos - i else pos + i, i / 2);
    }
  }

  /** The key belongs at rank r and is not there. */
  ghost predicate Splits(keys: seq<seq<Char>>, key: seq<Char>, r: nat) {
    r <= |keys| && forall t :: 0 <= t < |keys| ==>
      if t < r then Compare(key, keys[t]) > 0 else Compare(key, keys[t]) < 0
  }

  /** A failed search stops at the rank of the key or one place before it. */
  lemma {:induction false} SearchMisses(keys: seq<seq<Char>>, key: seq<Char>, r: nat, pos: int, i: nat)
    requires Splits(keys, key, r) && Stride(i) && pos - Reach(i) + 1 <= r <= pos + Reach(i)
    ensures Search(keys, key, pos, i).Missed?
    ensures Search(keys, key, pos, i).pos <= r <= Search(keys, key, pos, i).pos + 1
    decreases i
  {
    var d := Probe(keys, key, pos);
    if i != 0 {
      SearchMisses(keys, key, r, if d < 0 then pos - i else pos + i, i / 2);
    }
  }

  /** The key is at rank t and nowhere else. */
  ghost predicate Sits(keys: seq<seq<Char>>, key: seq<Char>, t: nat) {
    && t < |keys| && Compare(key, keys[t]) == 0
    && forall u :: 0 <= u < |keys| && u != t ==> if u < t then Compare(key, keys[u]) > 0 else Compare(key, keys[u]) < 0
  }

  lemma {:induction false} SearchHits(keys: seq<seq<Char>>, key: seq<Char>, t: nat, pos: int, i: nat)
    requires Sits(keys, key, t) && Stride(i) && pos - Reach(i) < t < pos + Reach(i)
    ensures Search(keys, key, pos, i) == Found(t)
    decreases i
  {
    var d := Probe(keys, key, pos);
    if d != 0 && i != 0 {
      SearchHits(keys, key, t, if d < 0 then pos - i else pos + i, i / 2);
    }
  }

  /** The whole search, for an index of at most np2 keys. */
  function SearchAll(keys: seq<seq<Char>>, key: seq<Char>, np2: nat): Outcome {
    Search(keys, key, np2 / 2, np2 / 2)
  }

  lemma StartsInReach(keys: seq<seq<Char>>, key: seq<Char>, np2: nat)
    requires PowerOf2(np2) && |keys| <= np2
    ensures Stride(np2 / 2)
    ensures match SearchAll(keys, key, np2)
            case Found(t) => t < |keys| && Compare(key, keys[t]) == 0
            case Missed(p) => -1 <= p <= |keys|
    ensures forall r: nat :: Splits(keys, key, r) ==>
      SearchAll(keys, key, np2).Missed? && SearchAll(keys, key, np2).pos <= r <= SearchAll(keys, key, np2).pos + 1
    ensures forall t: nat :: Sits(keys, key, t) ==> SearchAll(keys, key, np2) == Found(t)
  {
    SearchBounds(keys, key, np2 / 2, np2 / 2);
    forall r: nat | Splits(keys, key, r)
      ensures SearchAll(keys, key, np2).Missed? &&
        SearchAll(keys, key, np2).pos <= r <= SearchAll(keys, key, np2).pos + 1
    {
      SearchMisses(keys, key, r, np2 / 2, np2 / 2);
    }
    forall t: nat | Sits(keys, key, t) ensures SearchAll(keys, key, np2) == Found(t) {
      SearchHits(keys, key, t, np2 / 2, np2 / 2);
    }
  }

  // ----- ordered keys -----

  ghost predicate Ordered(keys: seq<seq<Char>>) {
    forall i, j :: 0 <= i < j < |keys| ==> Compare(keys[i], keys[j]) < 0
  }

  ghost predicate AllOver(keys: seq<seq<Char>>, alphabet: set<Char>) {
    forall i :: 0 <= i < |keys| ==> Over(keys[i], alphabet)
  }

  /** Where the key belongs, or where it sits. */
  function Rank(keys: seq<seq<Char>>, key: seq<Char>, n: nat): (r: nat)
    requires n <= |keys|
    ensures r <= n
  {
    if n == 0 then 0 else if Compare(key, keys[n - 1]) > 0 then n else Rank(keys, key, n - 1)
  }

  lemma Less(a: seq<Char>, b: seq<Char>, c: seq<Char>, alphabet: set<Char>)
    requires Orderly(alphabet) && Over(a, alphabet) && Over(b, alphabet) && Over(c, alphabet)
    requires Compare(a, b) <= 0 && Compare(b, c) <= 0
    ensures Compare(a, c) <= 0 && (Compare(a, b) < 0 || Compare(b, c) < 0 ==> Compare(a, c) < 0)
    ensures Compare(a, b) == 0 && Compare(b, c) == 0 ==> Compare(a, c) == 0
    ensures Compare(c, a) == -Compare(a, c)
  {
    CompareChain(a, b, c, alphabet, 0);
    Antisymmetric(a, c, 0);
  }

  lemma {:induction false} RankSplits(keys: seq<seq<Char>>, key: seq<Char>, alphabet: set<Char>, n: nat)
    requires n <= |keys| && Ordered(keys) && AllOver(keys, alphabet) && Over(key, alphabet) && Orderly(alphabet)
    ensures forall t :: 0 <= t < Rank(keys, key, n) ==> Compare(key, keys[t]) > 0
    ensures forall t :: Rank(keys, key, n) < t < n ==> Compare(key, keys[t]) < 0
    ensures Rank(keys, key, n) < n ==> Compare(key, keys[Rank(keys, key, n)]) <= 0
  {
    if n > 0 {
      if Compare(key, keys[n - 1]) > 0 {
        Antisymmetric(key, keys[n - 1], 0);
        forall t | 0 <= t < n ensures Compare(key, keys[t]) > 0 {
          if t < n - 1 { Less(keys[t], keys[n - 1], key, alphabet); }
        }
      } else {
        RankSplits(keys, key, alphabet, n - 1);
        var r := Rank(keys, key, n - 1);
        if r < n - 1 { Less(key, keys[r], keys[n - 1], alphabet); }
      }
    }
  }

  /** Over an orderly alphabet, the search in an ordered index finds exactly the keys that are
      there, and otherwise stops next to the rank of the key. */
  lemma SearchIsRight(keys: seq<seq<Char>>, key: seq<Char>, np2: nat, alphabet: set<Char>)
    requires PowerOf2(np2) && |keys| <= np2
    requires Ordered(keys) && AllOver(keys, alphabet) && Over(key, alphabet) && Orderly(alphabet)
    ensures match SearchAll(keys, key, np2)
            case Found(t) => Sits(keys, key, t)
            case Missed(p) => exists r: nat :: p <= r <= p + 1 && Splits(keys, key, r)
  {
    StartsInReach(keys, key, np2);
    RankSplits(keys, key, alphabet, |keys|);
    var r := Rank(keys, key, |keys|);
    if r < |keys| && Compare(key, keys[r]) == 0 {
      assert Sits(keys, key, r);
    } else {
      assert Splits(keys, key, r);
    }
  }
}
