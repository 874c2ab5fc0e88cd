/**
 * FindFollowSets (lemon.c): follow sets travel along the forward links between
 * configurations until nothing changes.  Configurations whose set has not changed
 * since they were last propagated are skipped.
 */
module LemonFollow {
  import opened LemonSets

  /** A path along forward links. */
  ghost predicate Path(links: seq<seq<nat>>, p: seq<nat>) {
    && p != []
    && (forall k :: 0 <= k < |p| ==> p[k] < |links|)
    && forall k :: 0 <= k < |p| - 1 ==> p[k + 1] in links[p[k]]
  }

  /** Terminal t reaches configuration c along p from a set that holds it. */
  ghost predicate Carries(start: seq<set<nat>>, links: seq<seq<nat>>, t: nat, c: nat, p: seq<nat>) {
    && |start| == |links| && Path(links, p) && p[|p| - 1] == c && t in start[p[0]]
  }

  ghost predicate Sourced(start: seq<set<nat>>, links: seq<seq<nat>>, t: nat, c: nat) {
    exists p :: Carries(start, links, t, c, p)
  }

  ghost predicate LinksOk(links: seq<seq<nat>>) {
    forall c, k :: 0 <= c < |links| && 0 <= k < |links[c]| ==> links[c][k] < |links|
  }

  /** The sets only hold what some path brings, and keep what they started with. */
  ghost predicate Between(start: seq<set<nat>>, links: seq<seq<nat>>, sets: seq<set<nat>>) {
    && |sets| == |start| == |links|
    && (forall c :: 0 <= c < |sets| ==> start[c] <= sets[c])
    && forall c, t :: 0 <= c < |sets| && t in sets[c] ==> Sourced(start, links, t, c)
  }

  /** Configuration c has passed its set on along its first n links. */
  ghost predicate PassedOn(links: seq<seq<nat>>, sets: seq<set<nat>>, c: nat, n: nat)
    requires c < |links| == |sets| && LinksOk(links)
  {
    forall k :: 0 <= k < n <= |links[c]| ==> sets[c] <= sets[links[c][k]]
  }

  lemma Extend(start: seq<set<nat>>, links: seq<seq<nat>>, t: nat, c: nat, d: nat)
    requires LinksOk(links) && c < |links| && d < |links| && d in links[c] && Sourced(start, links, t, c)
    ensures Sourced(start, links, t, d)
  {
    var p :| Carries(start, links, t, c, p);
    var q := p + [d];
    forall k | 0 <= k < |q| - 1 ensures q[k + 1] in links[q[k]] {
      assert q[k] == p[k];
      if k + 1 < |p| { assert p[k + 1] in links[p[k]]; }
    }
    assert Carries(start, links, t, d, q);
  }

  lemma BetweenStep(start: seq<set<nat>>, links: seq<seq<nat>>, sets: seq<set<nat>>, c: nat, d: nat)
    requires LinksOk(links) && Between(start, links, sets) && c < |links| && d < |links| && d in links[c]
    ensures Between(start, links, sets[d := sets[d] + sets[c]])
  {
    var sets' := sets[d := sets[d] + sets[c]];
    forall x, t | 0 <= x < |sets'| && t in sets'[x] ensures Sourced(start, links, t, x) {
      if x == d && t !in sets[d] { Extend(start, links, t, c, d); }
    }
  }

  lemma {:induction false} AlongPath(links: seq<seq<nat>>, sets: seq<set<nat>>, p: seq<nat>)
    requires LinksOk(links) && |sets| == |links| && Path(links, p)
    requires forall c :: 0 <= c < |links| ==> PassedOn(links, sets, c, |links[c]|)
    ensures sets[p[0]] <= sets[p[|p| - 1]]
  {
    if |p| > 1 {
      var q := p[..|p| - 1];
      AlongPath(links, sets, q);
      var c, d := q[|q| - 1], p[|p| - 1];
      assert d in links[c];
      var k :| 0 <= k < |links[c]| && links[c][k] == d;
      assert PassedOn(links, sets, c, |links[c]|);
    }
  }

  /** When every set has been passed on, the sets are exactly what the paths bring. */
  lemma Exact(start: seq<set<nat>>, links: seq<seq<nat>>, sets: seq<set<nat>>)
    requires LinksOk(links) && Between(start, links, sets)
    requires forall c :: 0 <= c < |links| ==> PassedOn(links, sets, c, |links[c]|)
    ensures forall c, t :: 0 <= c < |sets| ==> (t in sets[c] <==> Sourced(start, links, t, c))
  {
    forall c, t | 0 <= c < |sets| && Sourced(start, links, t, c) ensures t in sets[c] {
      var p :| Carries(start, links, t, c, p);
      AlongPath(links, sets, p);
    }
  }

  /** Outside the propagation of a configuration, COMPLETE means passed on. */
  ghost predicate Statuses(links: seq<seq<nat>>, sets: seq<set<nat>>, complete: seq<bool>)
    requires LinksOk(links) && |sets| == |links|
  {
    |complete| == |links| && forall c :: 0 <= c < |links| && complete[c] ==> PassedOn(links, sets, c, |links[c]|)
  }

  lemma StatusesStep(links: seq<seq<nat>>, sets: seq<set<nat>>, complete: seq<bool>, c: nat, n: nat)
    requires LinksOk(links) && |sets| == |links| && Statuses(links, sets, complete) && c < |links| && n < |links[c]|
    requires PassedOn(links, sets, c, n)
    ensures var d := links[c][n];
            var sets' := sets[d := sets[d] + sets[c]];
            var complete' := if sets' == sets then complete else complete[d := false];
            Statuses(links, sets', complete') && PassedOn(links, sets', c, n + 1)
  {
    var d := links[c][n];
    var sets' := sets[d := sets[d] + sets[c]];
    var complete' := if sets' == sets then complete else complete[d := false];
    forall x | 0 <= x < |links| && complete'[x] ensures PassedOn(links, sets', x, |links[x]|) {
      assert PassedOn(links, sets, x, |links[x]|);
      assert sets'[x] == sets[x];
    }
    assert sets'[c] == sets[c];
  }

  /** The sets as stored, and everything known about them. */
  ghost predicate Known(fws: seq<array<bool>>, links: seq<seq<nat>>, complete: array<bool>, size: nat,
                        start: seq<set<nat>>, sets: seq<set<nat>>)
    reads fws, complete
  {
    && LinksOk(links) && complete !in fws
    && Stored(fws, sets, size) && Between(start, links, sets) && Statuses(links, sets, complete[..])
  }

  /** One link: add the set of c to the set it leads to. */
  method PassOne(fws: seq<array<bool>>, links: seq<seq<nat>>, complete: array<bool>, c: nat, n: nat, size: nat,
                 ghost start: seq<set<nat>>, ghost sets0: seq<set<nat>>)
    returns (change: bool, ghost sets: seq<set<nat>>)
    requires Known(fws, links, complete, size, start, sets0)
    requires c < |links| && n < |links[c]| && PassedOn(links, sets0, c, n)
    modifies fws, complete
    ensures Known(fws, links, complete, size, start, sets) && PassedOn(links, sets, c, n + 1)
    ensures if change then Absent(sets, size) < Absent(sets0, size)
      else sets == sets0 && complete[..] == old(complete[..])
  {
    var d := links[c][n];
    BetweenStep(start, links, sets0, c, d);
    StatusesStep(links, sets0, complete[..], c, n);
    change := UnionInto(fws, d, c, size, sets0);
    sets := sets0[d := sets0[d] + sets0[c]];
    if change { complete[d] := false; }
  }

  /** The inner loop: pass the set of configuration c on along its links. */
  method Propagate(fws: seq<array<bool>>, links: seq<seq<nat>>, complete: array<bool>, c: nat, size: nat,
                   ghost start: seq<set<nat>>, ghost sets0: seq<set<nat>>)
    returns (progress: bool, ghost sets: seq<set<nat>>)
    requires Known(fws, links, complete, size, start, sets0) && c < |links|
    modifies fws, complete
    ensures Known(fws, links, complete, size, start, sets) && PassedOn(links, sets, c, |links[c]|)
    ensures if progress then Absent(sets, size) < Absent(sets0, size)
      else sets == sets0 && complete[..] == old(complete[..])
  {
    progress, sets := false, sets0;
    var n := 0;
    while n < |links[c]|
      invariant 0 <= n <= |links[c]|
      invariant Known(fws, links, complete, size, start, sets) && PassedOn(links, sets, c, n)
      invariant if progress then Absent(sets, size) < Absent(sets0, size)
        else sets == sets0 && complete[..] == old(complete[..])
    {
      var change;
      change, sets := PassOne(fws, links, complete, c, n, size, start, sets);
      progress := progress || change;
      n := n + 1;
    }
  }

  /** One sweep over all configurations; a sweep without change leaves all of them complete. */
  method Sweep(fws: seq<array<bool>>, links: seq<seq<nat>>, complete: array<bool>, size: nat,
               ghost start: seq<set<nat>>, ghost sets0: seq<set<nat>>)
    returns (progress: bool, ghost sets: seq<set<nat>>)
    requires Known(fws, links, complete, size, start, sets0)
    modifies fws, complete
    ensures Known(fws, links, complete, size, start, sets)
    ensures if progress then Absent(sets, size) < Absent(sets0, size)
      else sets == sets0 && forall x :: 0 <= x < |links| ==> complete[x]
  {
    progress, sets := false, sets0;
    for c := 0 to |links|
      invariant Known(fws, links, complete, size, start, sets)
      invariant if progress then Absent(sets, size) < Absent(sets0, size)
        else sets == sets0 && forall x :: 0 <= x < c ==> complete[..][x]
    {
      if !complete[c] {
        var changed;
        changed, sets := Visit(fws, links, complete, c, size, start, sets);
        progress := progress || changed;
      }
    }
  }

  /** One configuration of a sweep. */
  method Visit(fws: seq<array<bool>>, links: seq<seq<nat>>, complete: array<bool>, c: nat, size: nat,
               ghost start: seq<set<nat>>, ghost sets0: seq<set<nat>>)
    returns (changed: bool, ghost sets: seq<set<nat>>)
    requires Known(fws, links, complete, size, start, sets0) && c < |links|
    modifies fws, complete
    ensures Known(fws, links, complete, size, start, sets)
    ensures if changed then Absent(sets, size) < Absent(sets0, size)
      else sets == sets0 && complete[..] == old(complete[..])[c := true]
  {
    changed, sets := Propagate(fws, links, complete, c, size, start, sets0);
    MarkComplete(links, sets, complete[..], c);
    complete[c] := true;
  }

  lemma MarkComplete(links: seq<seq<nat>>, sets: seq<set<nat>>, complete: seq<bool>, c: nat)
    requires LinksOk(links) && |sets| == |links| && Statuses(links, sets, complete) && c < |links|
    requires PassedOn(links, sets, c, |links[c]|)
    ensures Statuses(links, sets, complete[c := true])
  {
  }

  /** FindFollowSets: in the end a terminal is in the follow set of a configuration if and
      only if a path of links brings it from a set that held it at the start. */
  method FindFollowSets(fws: seq<array<bool>>, links: seq<seq<nat>>, size: nat, ghost start: seq<set<nat>>)
    requires LinksOk(links) && |links| == |fws| && Stored(fws, start, size)
    modifies fws
    ensures forall c :: 0 <= c < |fws| ==> forall t: nat :: t in Elems(fws[c]) <==> Sourced(start, links, t, c)
  {
    var complete := new bool[|links|](_ => false);
    ghost var sets := start;
    forall c, t | 0 <= c < |sets| && t in sets[c] ensures Sourced(start, links, t, c) {
      assert Carries(start, links, t, c, [c]);
    }
    var progress := true;
    while progress
      invariant Known(fws, links, complete, size, start, sets) && fresh(complete)
      invariant !progress ==> forall c :: 0 <= c < |links| ==> complete[..][c]
      decreases Absent(sets, size), progress
    {
      progress, sets := Sweep(fws, links, complete, size, start, sets);
    }
    Exact(start, links, sets);
  }
}
