/**
 * LEMON's bottom-up list sort (lemon.c, "msort.c").  Nodes are taken off the list
 * one at a time and carried through thirty bins, bin `i` holding nothing or a sorted
 * list of 2^i nodes, exactly like a binary counter.  This module gives the algorithm
 * on sequences and proves what it computes; MergeSortList ties the relinking code to it.
 */
module MergeSort {

  /** `less(a, b)` stands for a negative comparison result. */
  ghost predicate Preorder<T(!new)>(less: (T, T) -> bool) {
    && (forall a, b :: less(a, b) ==> !less(b, a))
    && forall a, b, c :: !less(b, a) && !less(c, b) ==> !less(c, a)
  }

  ghost predicate Sorted<T(!new)>(less: (T, T) -> bool, s: seq<T>) {
    forall i, j :: 0 <= i < j < |s| ==> !less(s[j], s[i])
  }

  /** The elements of `s` that compare equal to `g`, in order. */
  function Class<T>(less: (T, T) -> bool, g: T, s: seq<T>): (r: seq<T>) {
    if s == [] then []
    else (if less(s[0], g) || less(g, s[0]) then [] else [s[0]]) + Class(less, g, s[1..])
  }

  /** Stability: equal elements keep their order; in particular none is lost or made up. */
  ghost predicate SameClasses<T(!new)>(less: (T, T) -> bool, s: seq<T>, t: seq<T>) {
    forall g :: Class(less, g, s) == Class(less, g, t)
  }

  function Merge<T>(less: (T, T) -> bool, a: seq<T>, b: seq<T>): (r: seq<T>)
    ensures |r| == |a| + |b|
  {
    if a == [] then b
    else if b == [] then a
    else if less(a[0], b[0]) then [a[0]] + Merge(less, a[1..], b)
    else [b[0]] + Merge(less, a, b[1..])
  }

  /** Carry `ep` upwards from bin `i`; bin |bins| - 1 is overwritten, not merged. */
  function Carry<T>(less: (T, T) -> bool, bins: seq<seq<T>>, i: nat, ep: seq<T>): (r: seq<seq<T>>)
    requires i < |bins|
    ensures |r| == |bins|
    decreases |bins| - i
  {
    if i < |bins| - 1 && bins[i] != [] then Carry(less, bins[i := []], i + 1, Merge(less, ep, bins[i]))
    else bins[i := ep]
  }

  /** The bins after the elements of `list` were carried in one by one. */
  function Fill<T>(less: (T, T) -> bool, bins: seq<seq<T>>, list: seq<T>): (r: seq<seq<T>>)
    requires |bins| > 0
    ensures |r| == |bins|
    decreases |list|
  {
    if list == [] then bins else Fill(less, Carry(less, bins, 0, [list[0]]), list[1..])
  }

  /** The final pass: merge the bins from the smallest up. */
  function Collect<T>(less: (T, T) -> bool, bins: seq<seq<T>>, i: nat, ep: seq<T>): (r: seq<T>)
    requires i <= |bins|
    decreases |bins| - i
  {
    if i == |bins| then ep
    else Collect(less, bins, i + 1, if bins[i] == [] then ep else Merge(less, ep, bins[i]))
  }

  const LISTSIZE: nat := 30

  function EmptyBins<T>(n: nat): seq<seq<T>> { seq(n, _ => []) }

  function Sort<T>(less: (T, T) -> bool, list: seq<T>): seq<T> {
    Collect(less, Fill(less, EmptyBins<T>(LISTSIZE), list), 0, [])
  }

  // ----- counting: what the bins hold -----

  function Pow2(n: nat): (p: nat)
    ensures p >= 1
  {
    if n == 0 then 1 else 2 * Pow2(n - 1)
  }

  function Total<T>(bins: seq<seq<T>>, i: nat): (n: nat)
    requires i <= |bins|
    decreases |bins| - i
  {
    if i == |bins| then 0 else |bins[i]| + Total(bins, i + 1)
  }

  /** Bin `i` holds nothing or exactly 2^i elements. */
  ghost predicate BinSizes<T>(bins: seq<seq<T>>) {
    forall i :: 0 <= i < |bins| ==> bins[i] == [] || |bins[i]| == Pow2(i)
  }

  lemma {:induction false} TotalUpdate<T>(bins: seq<seq<T>>, k: nat, i: nat, x: seq<T>)
    requires i <= |bins| && k < |bins|
    ensures Total(bins[k := x], i) == Total(bins, i) + if i <= k then |x| - |bins[k]| else 0
    decreases |bins| - i
  {
    if i < |bins| { TotalUpdate(bins, k, i + 1, x); }
  }

  /** One carry adds one element, unless it overwrites a non-empty top bin. */
  lemma {:induction false} CarryTotal<T>(less: (T, T) -> bool, bins: seq<seq<T>>, i: nat, ep: seq<T>)
    requires i < |bins| && BinSizes(bins) && |ep| == Pow2(i)
    ensures BinSizes(Carry(less, bins, i, ep))
    ensures Total(Carry(less, bins, i, ep), 0) <= Total(bins, 0) + |ep|
    ensures (exists k :: i <= k < |bins| && bins[k] == []) ==>
      Total(Carry(less, bins, i, ep), 0) == Total(bins, 0) + |ep|
    ensures (forall k :: i <= k < |bins| ==> bins[k] != []) ==>
      Total(Carry(less, bins, i, ep), 0) < Total(bins, 0) + |ep|
    decreases |bins| - i
  {
    TotalUpdate(bins, i, 0, ep);
    if i < |bins| - 1 && bins[i] != [] {
      TotalUpdate(bins, i, 0, []);
      var bins' := bins[i := []];
      assert forall k :: i < k < |bins| ==> bins'[k] == bins[k];
      CarryTotal(less, bins', i + 1, Merge(less, ep, bins[i]));
    }
  }

  /** The bins are all full exactly when they hold 2^n - 1 elements, the most they can. */
  lemma {:induction false} TotalBound<T>(bins: seq<seq<T>>, i: nat)
    requires i <= |bins| && BinSizes(bins)
    ensures Total(bins, i) <= Pow2(|bins|) - Pow2(i)
    ensures Total(bins, i) == Pow2(|bins|) - Pow2(i) <==> forall k :: i <= k < |bins| ==> bins[k] != []
    decreases |bins| - i
  {
    if i < |bins| { TotalBound(bins, i + 1); }
  }

  /** Nothing is lost while fewer than 2^n elements have been carried in; one is lost then. */
  lemma {:induction false} FillTotal<T>(less: (T, T) -> bool, bins: seq<seq<T>>, list: seq<T>)
    requires |bins| > 0 && BinSizes(bins)
    ensures BinSizes(Fill(less, bins, list))
    ensures Total(bins, 0) + |list| < Pow2(|bins|) ==> Total(Fill(less, bins, list), 0) == Total(bins, 0) + |list|
    ensures Total(Fill(less, bins, list), 0) <= Total(bins, 0) + |list|
    ensures Total(bins, 0) + |list| >= Pow2(|bins|) ==> Total(Fill(less, bins, list), 0) < Total(bins, 0) + |list|
    decreases |list|
  {
    TotalBound(bins, 0);
    if list != [] {
      CarryTotal(less, bins, 0, [list[0]]);
      FillTotal(less, Carry(less, bins, 0, [list[0]]), list[1..]);
    }
  }

  lemma {:induction false} CollectLength<T>(less: (T, T) -> bool, bins: seq<seq<T>>, i: nat, ep: seq<T>)
    requires i <= |bins|
    ensures |Collect(less, bins, i, ep)| == |ep| + Total(bins, i)
    decreases |bins| - i
  {
    if i < |bins| { CollectLength(less, bins, i + 1, if bins[i] == [] then ep else Merge(less, ep, bins[i])); }
  }

  lemma {:induction false} EmptyTotal<T>(n: nat, i: nat)
    requires i <= n
    ensures Total(EmptyBins<T>(n), i) == 0 && BinSizes(EmptyBins<T>(n))
    decreases n - i
  {
    if i < n { EmptyTotal<T>(n, i + 1); }
  }

  // ----- order and stability -----

  lemma {:induction false} ClassAppend<T>(less: (T, T) -> bool, g: T, s: seq<T>, t: seq<T>)
    ensures Class(less, g, s + t) == Class(less, g, s) + Class(less, g, t)
  {
    if s == [] {
      assert s + t == t;
    } else {
      assert (s + t)[1..] == s[1..] + t;
      ClassAppend(less, g, s[1..], t);
    }
  }

  lemma {:induction false} ClassEmpty<T>(less: (T, T) -> bool, g: T, s: seq<T>)
    requires forall i :: 0 <= i < |s| ==> less(s[i], g) || less(g, s[i])
    ensures Class(less, g, s) == []
  {
    if s != [] { ClassEmpty(less, g, s[1..]); }
  }

  lemma Uncons<T>(s: seq<T>)
    requires s != []
    ensures multiset(s) == multiset{s[0]} + multiset(s[1..])
  {
    assert s == [s[0]] + s[1..];
  }

  lemma Cons<T>(x: T, s: seq<T>)
    ensures multiset([x] + s) == multiset{x} + multiset(s)
  {
  }

  lemma {:induction false} MergeMembers<T>(less: (T, T) -> bool, a: seq<T>, b: seq<T>)
    ensures multiset(Merge(less, a, b)) == multiset(a) + multiset(b)
  {
    if a == [] || b == [] {
    } else if less(a[0], b[0]) {
      Cons(a[0], Merge(less, a[1..], b));
      MergeMembers(less, a[1..], b);
      Uncons(a);
    } else {
      Cons(b[0], Merge(less, a, b[1..]));
      MergeMembers(less, a, b[1..]);
      Uncons(b);
    }
  }

  /** Merging sorted lists gives a sorted list. */
  lemma {:induction false} MergeSorted<T(!new)>(less: (T, T) -> bool, a: seq<T>, b: seq<T>)
    requires Preorder(less) && Sorted(less, a) && Sorted(less, b)
    ensures Sorted(less, Merge(less, a, b))
  {
    if a == [] || b == [] {
    } else if less(a[0], b[0]) {
      MergeSorted(less, a[1..], b);
      SortedCons(less, a[0], a[1..], b);
    } else {
      MergeSorted(less, a, b[1..]);
      SortedCons(less, b[0], a, b[1..]);
    }
  }

  lemma {:induction false} SortedCons<T(!new)>(less: (T, T) -> bool, x: T, a: seq<T>, b: seq<T>)
    requires Sorted(less, Merge(less, a, b))
    requires forall i :: 0 <= i < |a| ==> !less(a[i], x)
    requires forall i :: 0 <= i < |b| ==> !less(b[i], x)
    ensures Sorted(less, [x] + Merge(less, a, b))
  {
    var m := Merge(less, a, b);
    MergeMembers(less, a, b);
    forall j | 0 <= j < |m| ensures !less(m[j], x) {
      assert m[j] in multiset(m);
      assert m[j] in a || m[j] in b;
    }
  }

  /** On ties the second list goes first: merging keeps each class as b's part, then a's. */
  lemma {:induction false} MergeClass<T(!new)>(less: (T, T) -> bool, g: T, a: seq<T>, b: seq<T>)
    requires Preorder(less) && Sorted(less, a) && Sorted(less, b)
    ensures Class(less, g, Merge(less, a, b)) == Class(less, g, b) + Class(less, g, a)
  {
    if a == [] || b == [] {
    } else if less(a[0], b[0]) {
      MergeClass(less, g, a[1..], b);
      ClassCons(less, g, a[0], Merge(less, a[1..], b));
      if !less(a[0], g) && !less(g, a[0]) {
        assert forall i :: 0 <= i < |b| ==> less(g, b[i]);
        ClassEmpty(less, g, b);
      }
    } else {
      MergeClass(less, g, a, b[1..]);
      ClassCons(less, g, b[0], Merge(less, a, b[1..]));
    }
  }

  lemma {:induction false} ClassCons<T>(less: (T, T) -> bool, g: T, x: T, s: seq<T>)
    ensures Class(less, g, [x] + s) == (if less(x, g) || less(g, x) then [] else [x]) + Class(less, g, s)
  {
    assert ([x] + s)[1..] == s;
  }

  /** The bins from `i` up, oldest first. */
  function Flat<T>(bins: seq<seq<T>>, i: nat): seq<T>
    requires i <= |bins|
    decreases |bins| - i
  {
    if i == |bins| then [] else Flat(bins, i + 1) + bins[i]
  }

  ghost predicate SortedBins<T(!new)>(less: (T, T) -> bool, bins: seq<seq<T>>) {
    forall i :: 0 <= i < |bins| ==> Sorted(less, bins[i])
  }

  lemma {:induction false} FlatSame<T>(bins: seq<seq<T>>, bins': seq<seq<T>>, i: nat)
    requires i <= |bins| == |bins'| && bins[i..] == bins'[i..]
    ensures Flat(bins, i) == Flat(bins', i)
    decreases |bins| - i
  {
    if i < |bins| {
      assert bins[i] == bins[i..][0] == bins'[i];
      assert bins[i + 1..] == bins[i..][1..] == bins'[i + 1..];
      FlatSame(bins, bins', i + 1);
    }
  }

  lemma {:induction false} CarrySorted<T(!new)>(less: (T, T) -> bool, bins: seq<seq<T>>, i: nat, ep: seq<T>)
    requires Preorder(less) && i < |bins| && SortedBins(less, bins) && Sorted(less, ep)
    ensures SortedBins(less, Carry(less, bins, i, ep))
    decreases |bins| - i
  {
    if i < |bins| - 1 && bins[i] != [] {
      MergeSorted(less, ep, bins[i]);
      CarrySorted(less, bins[i := []], i + 1, Merge(less, ep, bins[i]));
    }
  }

  lemma {:induction false} FillSorted<T(!new)>(less: (T, T) -> bool, bins: seq<seq<T>>, list: seq<T>)
    requires Preorder(less) && |bins| > 0 && SortedBins(less, bins)
    ensures SortedBins(less, Fill(less, bins, list))
    decreases |list|
  {
    if list != [] {
      CarrySorted(less, bins, 0, [list[0]]);
      FillSorted(less, Carry(less, bins, 0, [list[0]]), list[1..]);
    }
  }

  lemma {:induction false} CollectSorted<T(!new)>(less: (T, T) -> bool, bins: seq<seq<T>>, i: nat, ep: seq<T>)
    requires Preorder(less) && i <= |bins| && SortedBins(less, bins) && Sorted(less, ep)
    ensures Sorted(less, Collect(less, bins, i, ep))
    decreases |bins| - i
  {
    if i < |bins| {
      MergeSorted(less, ep, bins[i]);
      CollectSorted(less, bins, i + 1, if bins[i] == [] then ep else Merge(less, ep, bins[i]));
    }
  }

  /** A carry that finds an empty bin adds `ep` behind everything older. */
  lemma {:induction false} CarryClass<T(!new)>(less: (T, T) -> bool, g: T, bins: seq<seq<T>>, i: nat, ep: seq<T>)
    requires Preorder(less) && i < |bins| && SortedBins(less, bins) && Sorted(less, ep)
    requires forall k :: 0 <= k < i ==> bins[k] == []
    requires exists k :: i <= k < |bins| && bins[k] == []
    ensures Class(less, g, Flat(Carry(less, bins, i, ep), 0)) == Class(less, g, Flat(bins, i)) + Class(less, g, ep)
    decreases |bins| - i
  {
    if i < |bins| - 1 && bins[i] != [] {
      var bins', up := bins[i := []], Merge(less, ep, bins[i]);
      var k :| i <= k < |bins| && bins[k] == [];
      assert bins'[k] == [];
      MergeSorted(less, ep, bins[i]);
      CarryClass(less, g, bins', i + 1, up);
      assert Flat(bins', i + 1) == Flat(bins, i + 1) by { FlatSame(bins, bins', i + 1); }
      MergeClass(less, g, ep, bins[i]);
      CarryClassStep(less, g, Flat(bins, i + 1), bins[i], ep);
    } else {
      var r := bins[i := ep];
      FlatSame(bins, r, i + 1);
      FlatSkip(r, i);
      assert Flat(bins, i) == Flat(bins, i + 1);
      ClassAppend(less, g, Flat(r, i + 1), ep);
    }
  }

  /** Merging `ep` into `bin`, with everything older in front, appends `ep` to each class. */
  lemma {:induction false} CarryClassStep<T>(less: (T, T) -> bool, g: T, older: seq<T>, bin: seq<T>, ep: seq<T>)
    requires Class(less, g, Merge(less, ep, bin)) == Class(less, g, bin) + Class(less, g, ep)
    ensures Class(less, g, older) + Class(less, g, Merge(less, ep, bin)) ==
      Class(less, g, older + bin) + Class(less, g, ep)
  {
    ClassAppend(less, g, older, bin);
  }

  lemma {:induction false} FlatSkip<T>(bins: seq<seq<T>>, i: nat)
    requires i <= |bins| && forall k :: 0 <= k < i ==> bins[k] == []
    ensures Flat(bins, 0) == Flat(bins, i)
  {
    if i > 0 {
      FlatSkip(bins, i - 1);
      assert Flat(bins, i - 1) == Flat(bins, i) + [];
    }
  }

  lemma {:induction false} ClassSplit<T>(less: (T, T) -> bool, g: T, list: seq<T>, before: seq<T>)
    requires list != []
    ensures before + Class(less, g, list) == before + Class(less, g, [list[0]]) + Class(less, g, list[1..])
  {
    assert list == [list[0]] + list[1..];
    ClassAppend(less, g, [list[0]], list[1..]);
  }

  lemma {:induction false} FillClass<T(!new)>(less: (T, T) -> bool, g: T, bins: seq<seq<T>>, list: seq<T>)
    requires Preorder(less) && |bins| > 0 && SortedBins(less, bins) && BinSizes(bins)
    requires Total(bins, 0) + |list| < Pow2(|bins|)
    ensures Class(less, g, Flat(Fill(less, bins, list), 0)) == Class(less, g, Flat(bins, 0)) + Class(less, g, list)
    decreases |list|
  {
    if list != [] {
      TotalBound(bins, 0);
      CarryTotal(less, bins, 0, [list[0]]);
      CarryClass(less, g, bins, 0, [list[0]]);
      CarrySorted(less, bins, 0, [list[0]]);
      FillClass(less, g, Carry(less, bins, 0, [list[0]]), list[1..]);
      ClassSplit(less, g, list, Class(less, g, Flat(bins, 0)));
    }
  }

  lemma {:induction false} CollectClass<T(!new)>(less: (T, T) -> bool, g: T, bins: seq<seq<T>>, i: nat, ep: seq<T>)
    requires Preorder(less) && i <= |bins| && SortedBins(less, bins) && Sorted(less, ep)
    ensures Class(less, g, Collect(less, bins, i, ep)) == Class(less, g, Flat(bins, i)) + Class(less, g, ep)
    decreases |bins| - i
  {
    if i < |bins| {
      MergeSorted(less, ep, bins[i]);
      MergeClass(less, g, ep, bins[i]);
      CarryClassStep(less, g, Flat(bins, i + 1), bins[i], ep);
      CollectClass(less, g, bins, i + 1, if bins[i] == [] then ep else Merge(less, ep, bins[i]));
    }
  }

  lemma {:induction false} EmptyFlat<T>(n: nat, i: nat)
    requires i <= n
    ensures Flat(EmptyBins<T>(n), i) == []
    decreases n - i
  {
    if i < n { EmptyFlat<T>(n, i + 1); }
  }

  lemma Pow2Of30()
    ensures Pow2(30) == 1073741824
  {
    assert Pow2(10) == 1024;
    assert Pow2(20) == 1048576;
  }

  lemma {:induction false} SortClass<T(!new)>(less: (T, T) -> bool, g: T, list: seq<T>)
    requires Preorder(less) && |list| < 1073741824
    ensures Class(less, g, Sort(less, list)) == Class(less, g, list)
  {
    Pow2Of30();
    var bins := EmptyBins<T>(LISTSIZE);
    EmptyTotal<T>(LISTSIZE, 0);
    EmptyFlat<T>(LISTSIZE, 0);
    FillSorted(less, bins, list);
    FillClass(less, g, bins, list);
    CollectClass(less, g, Fill(less, bins, list), 0, []);
  }

  /** Below 2^30 nodes the result is sorted and stable. */
  lemma {:induction false} SortIsStable<T(!new)>(less: (T, T) -> bool, list: seq<T>)
    requires Preorder(less) && |list| < 1073741824
    ensures Sorted(less, Sort(less, list))
    ensures SameClasses(less, Sort(less, list), list)
  {
    var bins := EmptyBins<T>(LISTSIZE);
    FillSorted(less, bins, list);
    CollectSorted(less, Fill(less, bins, list), 0, []);
    forall g ensures Class(less, g, Sort(less, list)) == Class(less, g, list) {
      SortClass(less, g, list);
    }
  }

  lemma {:induction false} ClassCount<T>(less: (T, T) -> bool, x: T, s: seq<T>)
    requires !less(x, x)
    ensures multiset(Class(less, x, s))[x] == multiset(s)[x]
  {
    if s != [] {
      ClassCount(less, x, s[1..]);
      Uncons(s);
      Cons(s[0], Class(less, x, s[1..]));
    }
  }

  lemma {:induction false} SortLength<T>(less: (T, T) -> bool, list: seq<T>)
    ensures |Sort(less, list)| == |list| <==> |list| < 1073741824
  {
    Pow2Of30();
    var bins := EmptyBins<T>(LISTSIZE);
    EmptyTotal<T>(LISTSIZE, 0);
    FillTotal(less, bins, list);
    CollectLength(less, Fill(less, bins, list), 0, []);
  }

  /** The result holds the same nodes if and only if there are fewer than 2^30 of them:
      the 2^30-th overwrites the top bin. */
  lemma SortIsPermutation<T(!new)>(less: (T, T) -> bool, list: seq<T>)
    requires Preorder(less)
    ensures multiset(Sort(less, list)) == multiset(list) <==> |list| < 1073741824
  {
    SortLength(less, list);
    if |list| < 1073741824 {
      SortIsStable(less, list);
      forall x ensures multiset(Sort(less, list))[x] == multiset(list)[x] {
        ClassCount(less, x, Sort(less, list));
        ClassCount(less, x, list);
      }
    } else {
      assert |multiset(Sort(less, list))| != |multiset(list)|;
    }
  }
}
