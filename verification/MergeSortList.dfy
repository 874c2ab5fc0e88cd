/**
 * The list sort as lemon.c runs it: `merge` and `msort` only relink `next` pointers.
 * Ghost sequences name the nodes of each list, so that the contracts can say the
 * relinked list is the one the sequence algorithm of MergeSort computes.
 */
module MergeSortList {
  import opened MergeSort

  class Node {
    var next: Node?
  }

  /** `head` starts the list of exactly these nodes, in this order. */
  ghost predicate Linked(head: Node?, nodes: seq<Node>)
    reads nodes
  {
    && head == First(nodes, 0)
    && forall i {:trigger nodes[i].next} :: 0 <= i < |nodes| ==> nodes[i].next == First(nodes, i + 1)
  }

  function First(nodes: seq<Node>, i: nat): Node? {
    if i < |nodes| then nodes[i] else null
  }

  ghost predicate NoDup(nodes: seq<Node>) {
    forall i, j :: 0 <= i < j < |nodes| ==> nodes[i] != nodes[j]
  }

  ghost predicate Apart(a: seq<Node>, b: seq<Node>) {
    forall i, j :: 0 <= i < |a| && 0 <= j < |b| ==> a[i] != b[j]
  }

  lemma {:induction false} NoDupCount(nodes: seq<Node>, x: Node)
    ensures NoDup(nodes) ==> multiset(nodes)[x] <= 1
    ensures x !in nodes ==> multiset(nodes)[x] == 0
  {
    if nodes != [] {
      NoDupCount(nodes[1..], x);
      assert nodes == [nodes[0]] + nodes[1..];
    }
  }

  lemma {:induction false} CountNoDup(nodes: seq<Node>)
    requires forall x :: multiset(nodes)[x] <= 1
    ensures NoDup(nodes)
  {
    forall i, j | 0 <= i < j < |nodes| ensures nodes[i] != nodes[j] {
      var x := nodes[i];
      assert nodes == nodes[..j] + nodes[j..];
      assert x in nodes[..j];
      assert multiset(nodes)[x] == multiset(nodes[..j])[x] + multiset(nodes[j..])[x];
      assert nodes[j] in nodes[j..];
    }
  }

  lemma MergeNoDup(less: (Node, Node) -> bool, a: seq<Node>, b: seq<Node>)
    requires NoDup(a) && NoDup(b) && Apart(a, b)
    ensures NoDup(Merge(less, a, b))
    ensures forall x :: x in Merge(less, a, b) <==> x in a || x in b
  {
    var m := Merge(less, a, b);
    MergeMembers(less, a, b);
    forall x ensures multiset(m)[x] <= 1 && (x in m <==> x in a || x in b) {
      NoDupCount(a, x);
      NoDupCount(b, x);
      assert x in m <==> x in multiset(m);
    }
    CountNoDup(m);
  }

  /** The nodes from index i + j on are still to come from na[i..] and nb[j..]. */
  ghost predicate Ahead(less: (Node, Node) -> bool, m: seq<Node>, na: seq<Node>, nb: seq<Node>, i: nat, j: nat) {
    && i <= |na| && j <= |nb| && |m| == |na| + |nb|
    && m[i + j..] == Merge(less, na[i..], nb[j..])
  }

  lemma {:induction false} AheadStep(less: (Node, Node) -> bool, m: seq<Node>, na: seq<Node>, nb: seq<Node>, i: nat,
                                     j: nat)
    requires Ahead(less, m, na, nb, i, j) && i < |na| && j < |nb|
    ensures if less(na[i], nb[j]) then m[i + j] == na[i] && Ahead(less, m, na, nb, i + 1, j)
            else m[i + j] == nb[j] && Ahead(less, m, na, nb, i, j + 1)
  {
    assert m[i + j] == m[i + j..][0];
    assert m[i + j + 1..] == m[i + j..][1..];
    assert na[i..][1..] == na[i + 1..];
    assert nb[j..][1..] == nb[j + 1..];
  }

  lemma {:induction false} AheadEnd(less: (Node, Node) -> bool, m: seq<Node>, na: seq<Node>, nb: seq<Node>, i: nat,
                                    j: nat)
    requires Ahead(less, m, na, nb, i, j) && (i == |na| || j == |nb|)
    ensures forall k :: i + j <= k < |m| ==> m[k] == if j == |nb| then na[k - j] else nb[k - i]
  {
    assert m[i + j..] == if j == |nb| then na[i..] else nb[j..];
    forall k | i + j <= k < |m| ensures m[k] == if j == |nb| then na[k - j] else nb[k - i] {
      assert m[k] == m[i + j..][k - i - j];
    }
  }

  /** The part of a list that starts at index `i` is still linked. */
  ghost predicate LinkedFrom(nodes: seq<Node>, i: nat)
    reads nodes
  {
    forall k {:trigger nodes[k].next} :: i <= k < |nodes| ==> nodes[k].next == First(nodes, k + 1)
  }

  /** merge: relink two sorted lists into one. */
  method MergeLists(less: (Node, Node) -> bool, a0: Node?, b0: Node?, ghost na: seq<Node>, ghost nb: seq<Node>)
    returns (head: Node?)
    requires Linked(a0, na) && Linked(b0, nb)
    requires NoDup(na) && NoDup(nb) && Apart(na, nb)
    modifies na, nb
    ensures Linked(head, Merge(less, na, nb))
  {
    var a, b := a0, b0;
    if a == null {
      head := b;
    } else if b == null {
      head := a;
    } else {
      ghost var m := Merge(less, na, nb);
      assert NoDup(m) by { MergeNoDup(less, na, nb); }
      assert Ahead(less, m, na, nb, 0, 0);
      AheadStep(less, m, na, nb, 0, 0);
      if less(a, b) {
        head := a;
        Weave(less, a, a.next, b, na, nb, 1, 0, m);
      } else {
        head := b;
        Weave(less, b, a, b.next, na, nb, 0, 1, m);
      }
    }
  }

  /** The loop of merge, entered once the first node has been chosen. */
  method Weave(less: (Node, Node) -> bool, first: Node, a0: Node?, b0: Node?,
               ghost na: seq<Node>, ghost nb: seq<Node>, ghost i0: nat, ghost j0: nat, ghost m: seq<Node>)
    requires NoDup(na) && NoDup(nb) && Apart(na, nb) && NoDup(m)
    requires i0 + j0 == 1 && Ahead(less, m, na, nb, i0, j0)
    requires a0 == First(na, i0) && b0 == First(nb, j0)
    requires first == m[0] == (if i0 == 1 then na[0] else nb[0])
    requires LinkedFrom(na, i0) && LinkedFrom(nb, j0)
    modifies na, nb
    ensures forall k {:trigger m[k].next} :: 0 <= k < |m| ==> m[k].next == First(m, k + 1)
  {
    var ptr, a, b := first, a0, b0;
    ghost var i: nat, j: nat := i0, j0;
    while a != null && b != null
      invariant Ahead(less, m, na, nb, i, j) && i + j >= 1
      invariant a == First(na, i) && b == First(nb, j)
      invariant ptr == m[i + j - 1] && (ptr in na || ptr in nb)
      invariant forall k :: i <= k < |na| ==> ptr != na[k]
      invariant forall k :: j <= k < |nb| ==> ptr != nb[k]
      invariant forall k {:trigger m[k].next} :: 0 <= k < i + j - 1 ==> m[k].next == First(m, k + 1)
      invariant LinkedFrom(na, i) && LinkedFrom(nb, j)
      decreases |na| + |nb| - i - j
    {
      AheadStep(less, m, na, nb, i, j);
      if less(a, b) {
        ptr.next := a;
        ptr := a;
        a := a.next;
        i := i + 1;
      } else {
        ptr.next := b;
        ptr := b;
        b := b.next;
        j := j + 1;
      }
    }
    Splice(less, ptr, if a != null then a else b, na, nb, i, j, m);
  }

  /** The end of merge: hang the list that is left behind the last node placed. */
  method Splice(less: (Node, Node) -> bool, ptr: Node, rest: Node?,
                ghost na: seq<Node>, ghost nb: seq<Node>, ghost i: nat, ghost j: nat, ghost m: seq<Node>)
    requires NoDup(m) && Ahead(less, m, na, nb, i, j) && i + j >= 1 && (i == |na| || j == |nb|)
    requires rest == if j == |nb| then First(na, i) else First(nb, j)
    requires ptr == m[i + j - 1] && (ptr in na || ptr in nb)
    requires forall k :: i <= k < |na| ==> ptr != na[k]
    requires forall k :: j <= k < |nb| ==> ptr != nb[k]
    requires forall k {:trigger m[k].next} :: 0 <= k < i + j - 1 ==> m[k].next == First(m, k + 1)
    requires LinkedFrom(na, i) && LinkedFrom(nb, j)
    modifies na, nb
    ensures forall k {:trigger m[k].next} :: 0 <= k < |m| ==> m[k].next == First(m, k + 1)
  {
    AheadEnd(less, m, na, nb, i, j);
    ptr.next := rest;
  }

  // ----- msort: the thirty bins -----

  const EP: int := -1
  const REST: int := -2

  /** `owner` says which list each node is on, so distinct lists share no node. */
  ghost predicate On(owner: map<Node, int>, list: seq<Node>, k: int) {
    && NoDup(list)
    && forall i :: 0 <= i < |list| ==> list[i] in owner && owner[list[i]] == k
  }

  /** Bin k of the array heads the list bins[k]. */
  ghost predicate Shelved(heads: array<Node?>, bins: seq<seq<Node>>, owner: map<Node, int>)
    reads heads, owner.Keys
  {
    && heads.Length == |bins|
    && forall k :: 0 <= k < |bins| ==> On(owner, bins[k], k) && Linked(heads[k], bins[k])
  }

  ghost function Hand(owner: map<Node, int>, list: seq<Node>, k: int): (r: map<Node, int>)
    ensures r.Keys == owner.Keys
    ensures forall x :: x in r ==> r[x] == if x in list then k else owner[x]
  {
    map x | x in owner :: if x in list then k else owner[x]
  }

  /** Merging bin k into the list in hand moves its nodes there and no others. */
  lemma HandOver(less: (Node, Node) -> bool, owner: map<Node, int>, list: seq<Node>, bin: seq<Node>, k: int)
    requires On(owner, list, EP) && On(owner, bin, k) && k != EP
    ensures var merged := Merge(less, list, bin);
            On(Hand(owner, merged, EP), merged, EP)
    ensures var owner' := Hand(owner, Merge(less, list, bin), EP);
            forall x :: x in owner && owner[x] != k && owner[x] != EP ==> owner'[x] == owner[x]
  {
    var merged := Merge(less, list, bin);
    MergeNoDup(less, list, bin);
    MergeMembers(less, list, bin);
    forall i | 0 <= i < |merged| ensures merged[i] in owner {
      assert merged[i] in multiset(merged);
      assert merged[i] in multiset(list) || merged[i] in multiset(bin);
    }
  }

  /** One turn of the inner loop: merge bin i into the list in hand and empty the bin. */
  method TakeBin(less: (Node, Node) -> bool, heads: array<Node?>, i: nat, ep0: Node?, ghost list: seq<Node>,
                 ghost bins: seq<seq<Node>>, ghost rest: seq<Node>, ghost owner: map<Node, int>)
    returns (ep: Node?)
    requires i < |bins| && Shelved(heads, bins, owner)
    requires On(owner, list, EP) && Linked(ep0, list)
    requires On(owner, rest, REST) && LinkedFrom(rest, 0)
    modifies heads, owner.Keys
    ensures var merged := Merge(less, list, bins[i]);
            var owner' := Hand(owner, merged, EP);
            && Shelved(heads, bins[i := []], owner') && On(owner', merged, EP) && Linked(ep, merged)
            && On(owner', rest, REST)
    ensures LinkedFrom(rest, 0)
  {
    assert On(owner, bins[i], i) && Linked(heads[i], bins[i]);
    HandOver(less, owner, list, bins[i], i);
    ep := MergeLists(less, ep0, heads[i], list, bins[i]);
    heads[i] := null;
  }

  /** The inner loop of msort: carry one node through the bins. */
  method CarryNode(less: (Node, Node) -> bool, heads: array<Node?>, node: Node,
                   ghost bins0: seq<seq<Node>>, ghost rest: seq<Node>, ghost owner0: map<Node, int>)
    returns (ghost bins: seq<seq<Node>>, ghost owner: map<Node, int>)
    requires |bins0| == LISTSIZE && Shelved(heads, bins0, owner0)
    requires On(owner0, [node], EP) && On(owner0, rest, REST)
    requires node.next == null && LinkedFrom(rest, 0)
    modifies heads, owner0.Keys
    ensures bins == Carry(less, bins0, 0, [node]) && owner.Keys == owner0.Keys
    ensures Shelved(heads, bins, owner) && On(owner, rest, REST) && LinkedFrom(rest, 0)
  {
    var ep: Node? := node;
    var i := 0;
    ghost var list := [node];
    bins, owner := bins0, owner0;
    while i < LISTSIZE - 1 && heads[i] != null
      invariant 0 <= i < LISTSIZE && |bins| == LISTSIZE && owner.Keys == owner0.Keys
      invariant Carry(less, bins0, 0, [node]) == Carry(less, bins, i, list)
      invariant Shelved(heads, bins, owner) && On(owner, rest, REST) && LinkedFrom(rest, 0)
      invariant On(owner, list, EP) && Linked(ep, list)
    {
      assert bins[i] != [] by { assert Linked(heads[i], bins[i]); }
      ep := TakeBin(less, heads, i, ep, list, bins, rest, owner);
      list := Merge(less, list, bins[i]);
      bins := bins[i := []];
      owner := Hand(owner, list, EP);
      i := i + 1;
    }
    assert i < LISTSIZE - 1 ==> bins[i] == [] by { assert Linked(heads[i], bins[i]); }
    heads[i] := ep;
    bins := bins[i := list];
    owner := Hand(owner, list, i);
  }

  /** One turn of the outer loop: unlink the first node and carry it in. */
  method TakeNode(less: (Node, Node) -> bool, heads: array<Node?>, ep: Node,
                  ghost bins0: seq<seq<Node>>, ghost rest: seq<Node>, ghost owner0: map<Node, int>)
    returns (list: Node?, ghost bins: seq<seq<Node>>, ghost owner: map<Node, int>)
    requires |bins0| == LISTSIZE && Shelved(heads, bins0, owner0)
    requires rest != [] && ep == rest[0] && On(owner0, rest, REST) && LinkedFrom(rest, 0)
    modifies heads, owner0.Keys
    ensures bins == Carry(less, bins0, 0, [rest[0]]) && owner.Keys == owner0.Keys
    ensures Shelved(heads, bins, owner) && On(owner, rest[1..], REST) && LinkedFrom(rest[1..], 0)
    ensures list == First(rest[1..], 0)
  {
    list := ep.next;
    ep.next := null;
    bins, owner := CarryNode(less, heads, ep, bins0, rest[1..], Hand(owner0, [ep], EP));
  }

  /** msort, for a list of any length: the relinked list is the one `Sort` computes. */
  method Msort(less: (Node, Node) -> bool, list0: Node?, ghost nodes: seq<Node>) returns (head: Node?)
    requires Linked(list0, nodes) && NoDup(nodes)
    modifies nodes
    ensures Linked(head, Sort(less, nodes))
  {
    var list := list0;
    var heads := new Node?[LISTSIZE](_ => null);
    ghost var bins := EmptyBins<Node>(LISTSIZE);
    ghost var owner := map x | x in nodes :: REST;
    ghost var rest := nodes;
    while list != null
      invariant list == First(rest, 0) && LinkedFrom(rest, 0) && On(owner, rest, REST)
      invariant |bins| == LISTSIZE && Shelved(heads, bins, owner) && fresh(heads)
      invariant owner.Keys == set x | x in nodes
      invariant Fill(less, EmptyBins<Node>(LISTSIZE), nodes) == Fill(less, bins, rest)
      decreases |rest|
    {
      list, bins, owner := TakeNode(less, heads, list, bins, rest, owner);
      rest := rest[1..];
    }
    head := CollectBins(less, heads, bins, owner);
  }

  /** The last loop of msort. */
  method CollectBins(less: (Node, Node) -> bool, heads: array<Node?>, ghost bins: seq<seq<Node>>,
                     ghost owner0: map<Node, int>)
    returns (ep: Node?)
    requires |bins| == LISTSIZE && Shelved(heads, bins, owner0)
    modifies heads, owner0.Keys
    ensures Linked(ep, Collect(less, bins, 0, []))
  {
    ep := null;
    ghost var list: seq<Node> := [];
    ghost var left, owner := bins, owner0;
    for i := 0 to LISTSIZE
      invariant |left| == LISTSIZE && owner.Keys == owner0.Keys
      invariant forall k :: i <= k < LISTSIZE ==> left[k] == bins[k]
      invariant Collect(less, bins, 0, []) == Collect(less, bins, i, list)
      invariant Shelved(heads, left, owner) && On(owner, list, EP) && Linked(ep, list)
    {
      assert Linked(heads[i], left[i]);
      if heads[i] != null {
        ep := TakeBin(less, heads, i, ep, list, left, [], owner);
        list := Merge(less, list, left[i]);
        left := left[i := []];
        owner := Hand(owner, list, EP);
      }
    }
  }
}
