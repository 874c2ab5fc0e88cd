/** LEMON's sets of terminals (lemon.c, "set.c"): one flag per terminal. */
module LemonSets {

  function Elems(s: array<bool>): (r: set<nat>)
    reads s
  {
    set t | 0 <= t < s.Length && s[t]
  }

  /** SetAdd: returns whether the element is new. */
  method SetAdd(s: array<bool>, e: nat) returns (added: bool)
    requires e < s.Length
    modifies s
    ensures Elems(s) == old(Elems(s)) + {e}
    ensures added <==> e !in old(Elems(s))
  {
    added := !s[e];
    s[e] := true;
  }

  /** SetUnion: adds s2 to s1, which may be the same set; returns whether s1 changed. */
  method SetUnion(s1: array<bool>, s2: array<bool>) returns (progress: bool)
    requires s1.Length == s2.Length
    modifies s1
    ensures Elems(s1) == old(Elems(s1)) + old(Elems(s2))
    ensures progress <==> Elems(s1) != old(Elems(s1))
  {
    progress := false;
    for i := 0 to s1.Length
      invariant forall k :: 0 <= k < i ==> s1[k] == (old(s1[k]) || old(s2[k]))
      invariant forall k :: i <= k < s1.Length ==> s1[k] == old(s1[k]) && s2[k] == old(s2[k])
      invariant progress <==> exists k :: 0 <= k < i && !old(s1[k]) && old(s2[k])
    {
      if s2[i] && !s1[i] {
        progress := true;
        s1[i] := true;
      }
    }
    if progress {
      ghost var k :| 0 <= k < s1.Length && !old(s1[k]) && s1[k];
      assert k in Elems(s1) && k !in old(Elems(s1));
    }
  }

  // ----- families of sets, stored side by side -----

  /** What is still missing from the sets. */
  ghost function Absent(sets: seq<set<nat>>, size: nat): set<(nat, nat)> {
    set c, t | 0 <= c < |sets| && 0 <= t < size && t !in sets[c] :: (c, t)
  }

  ghost predicate Stored(fws: seq<array<bool>>, sets: seq<set<nat>>, size: nat)
    reads fws
  {
    && |fws| == |sets|
    && (forall c, d :: 0 <= c < d < |fws| ==> fws[c] != fws[d])
    && forall c :: 0 <= c < |fws| ==> fws[c].Length == size && Elems(fws[c]) == sets[c]
  }

  lemma Grows(sets: seq<set<nat>>, d: nat, more: set<nat>, size: nat)
    requires d < |sets| && !(more <= sets[d]) && forall t :: t in more ==> t < size
    ensures Absent(sets[d := sets[d] + more], size) < Absent(sets, size)
  {
    var t :| t in more && t !in sets[d];
    assert (d, t) in Absent(sets, size) && (d, t) !in Absent(sets[d := sets[d] + more], size);
  }

  /** SetUnion within a family: add set c to set d. */
  method UnionInto(family: seq<array<bool>>, d: nat, c: nat, size: nat, ghost sets: seq<set<nat>>)
    returns (change: bool)
    requires Stored(family, sets, size) && c < |family| && d < |family|
    modifies family
    ensures var sets' := sets[d := sets[d] + sets[c]];
            Stored(family, sets', size) && if change then Absent(sets', size) < Absent(sets, size) else sets' == sets
  {
    assert Elems(family[c]) == sets[c] && Elems(family[d]) == sets[d];
    change := SetUnion(family[d], family[c]);
    if change {
      Grows(sets, d, sets[c], size);
    } else {
      assert sets[d] + sets[c] == sets[d];
    }
  }

  /** SetAdd within a family. */
  method AddInto(family: seq<array<bool>>, d: nat, e: nat, size: nat, ghost sets: seq<set<nat>>) returns (change: bool)
    requires Stored(family, sets, size) && d < |family| && e < size
    modifies family
    ensures var sets' := sets[d := sets[d] + {e}];
            Stored(family, sets', size) && if change then Absent(sets', size) < Absent(sets, size) else sets' == sets
  {
    assert Elems(family[d]) == sets[d];
    change := SetAdd(family[d], e);
    if change {
      Grows(sets, d, {e}, size);
    } else {
      assert sets[d] + {e} == sets[d];
    }
  }

  /** SetNew, n times. */
  method NewSets(n: nat, size: nat) returns (s: seq<array<bool>>)
    ensures |s| == n && fresh(s) && Stored(s, seq(n, _ => {}), size)
  {
    s := [];
    for i := 0 to n
      invariant |s| == i && fresh(s)
      invariant forall c, d :: 0 <= c < d < i ==> s[c] != s[d]
      invariant forall c :: 0 <= c < i ==> s[c].Length == size && forall k :: 0 <= k < size ==> !s[c][k]
    {
      var a := new bool[size](_ => false);
      s := s + [a];
    }
  }
}
