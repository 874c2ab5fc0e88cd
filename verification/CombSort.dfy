/** http_dirls_sort (mod_dirlisting.c): comb sort of the entries of a directory, in place. */
module CombSort {
  import opened Bytes

  datatype Entry = Entry(name: seq<byte>, mtime: int, size: int)

  /** strcmp(a, b) > 0 */
  predicate After(a: seq<byte>, b: seq<byte>) {
    a != [] && (b == [] || a[0] > b[0] || (a[0] == b[0] && After(a[1..], b[1..])))
  }

  /** The names agree before place k; there b has ended or has the smaller byte. */
  predicate LaterAt(a: seq<byte>, b: seq<byte>, k: nat) {
    k < |a| && k <= |b| && a[..k] == b[..k] && (k == |b| || a[k] > b[k])
  }

  ghost predicate LaterName(a: seq<byte>, b: seq<byte>) { exists k: nat :: LaterAt(a, b, k) }

  lemma SameFront(a: seq<byte>, b: seq<byte>, k: nat)
    requires LaterAt(a, b, k) && k > 0
    ensures a != [] && b != [] && a[0] == b[0]
  {
    assert a[..k][0] == b[..k][0];
  }

  /** strcmp decides at the first difference. */
  lemma {:induction false} AfterIff(a: seq<byte>, b: seq<byte>)
    ensures After(a, b) <==> LaterName(a, b)
  {
    if a == [] {
      assert forall k: nat :: !LaterAt(a, b, k);
    } else if b == [] || a[0] != b[0] {
      assert LaterAt(a, b, 0) <==> b == [] || a[0] > b[0];
      forall k: nat | LaterAt(a, b, k) ensures k == 0 {
        if k > 0 { SameFront(a, b, k); }
      }
    } else {
      AfterIff(a[1..], b[1..]);
      forall k: nat ensures LaterAt(a, b, k + 1) <==> LaterAt(a[1..], b[1..], k) { LaterAtNext(a, b, k); }
      assert !LaterAt(a, b, 0);
      if k: nat :| LaterAt(a, b, k) { assert k > 0 && LaterAt(a[1..], b[1..], k - 1); }
      if k: nat :| LaterAt(a[1..], b[1..], k) { assert LaterAt(a, b, k + 1); }
    }
  }

  lemma LaterAtNext(a: seq<byte>, b: seq<byte>, k: nat)
    requires a != [] && b != [] && a[0] == b[0]
    ensures LaterAt(a, b, k + 1) <==> LaterAt(a[1..], b[1..], k)
  {
    if k < |a| - 1 && k <= |b| - 1 {
      assert a[..k + 1] == [a[0]] + a[1..][..k] && b[..k + 1] == [b[0]] + b[1..][..k];
      assert a[..k + 1][1..] == a[1..][..k] && b[..k + 1][1..] == b[1..][..k];
    }
  }

  lemma {:induction false} AfterIsOneWay(a: seq<byte>, b: seq<byte>)
    requires After(a, b)
    ensures !After(b, a)
  {
    if b != [] && a[0] == b[0] { AfterIsOneWay(a[1..], b[1..]); }
  }

  lemma {:induction false} NotAfterIsTransitive(a: seq<byte>, b: seq<byte>, c: seq<byte>)
    requires !After(a, b) && !After(b, c)
    ensures !After(a, c)
  {
    if a != [] && b != [] && c != [] && a[0] == b[0] == c[0] {
      NotAfterIsTransitive(a[1..], b[1..], c[1..]);
    }
  }

  /** No name comes behind a later one: at the first difference of two names the one in front
      has the smaller byte, or has ended. */
  ghost predicate Sorted(s: seq<Entry>) {
    forall i, j :: 0 <= i < j < |s| ==> !LaterName(s[i].name, s[j].name)
  }

  ghost predicate SortedBy(s: seq<Entry>, gap: nat, n: nat) {
    forall i :: 0 <= i < n && i + gap < |s| ==> !After(s[i].name, s[i + gap].name)
  }

  lemma {:induction false} NeighboursSuffice(s: seq<Entry>, i: nat, j: nat)
    requires SortedBy(s, 1, |s|) && i < j < |s|
    ensures !After(s[i].name, s[j].name)
    decreases j - i
  {
    if i + 1 < j {
      NeighboursSuffice(s, i, j - 1);
      assert !After(s[j - 1].name, s[j - 1 + 1].name);
      NotAfterIsTransitive(s[i].name, s[j - 1].name, s[j].name);
    }
  }

  lemma NeighboursSort(s: seq<Entry>)
    requires SortedBy(s, 1, |s|)
    ensures Sorted(s)
  {
    forall i, j | 0 <= i < j < |s| ensures !LaterName(s[i].name, s[j].name) {
      NeighboursSuffice(s, i, j);
      AfterIff(s[i].name, s[j].name);
    }
  }

  // ----- inversions -----

  function Larger(s: seq<Entry>, x: Entry): nat {
    if s == [] then 0
    else Larger(s[..|s| - 1], x) + if After(s[|s| - 1].name, x.name) then 1 else 0
  }

  function Inversions(s: seq<Entry>): nat {
    if s == [] then 0 else Inversions(s[..|s| - 1]) + Larger(s[..|s| - 1], s[|s| - 1])
  }

  lemma LargerWith(s: seq<Entry>, y: Entry, x: Entry)
    ensures Larger(s + [y], x) == Larger(s, x) + if After(y.name, x.name) then 1 else 0
  {
    assert (s + [y])[..|s|] == s;
  }

  lemma InversionsWith(s: seq<Entry>, x: Entry)
    ensures Inversions(s + [x]) == Inversions(s) + Larger(s, x)
  {
    assert (s + [x])[..|s|] == s;
  }

  lemma {:induction false} LargerSwap(p: seq<Entry>, x: Entry, y: Entry, q: seq<Entry>, z: Entry)
    ensures Larger(p + [x, y] + q, z) == Larger(p + [y, x] + q, z)
  {
    if q == [] {
      assert p + [x, y] + q == p + [x] + [y] && p + [y, x] + q == p + [y] + [x];
      LargerWith(p + [x], y, z);
      LargerWith(p, x, z);
      LargerWith(p + [y], x, z);
      LargerWith(p, y, z);
    } else {
      var n := |q| - 1;
      LargerSwap(p, x, y, q[..n], z);
      assert p + [x, y] + q == p + [x, y] + q[..n] + [q[n]] && p + [y, x] + q == p + [y, x] + q[..n] + [q[n]];
      LargerWith(p + [x, y] + q[..n], q[n], z);
      LargerWith(p + [y, x] + q[..n], q[n], z);
    }
  }

  /** Exchanging two neighbours that are out of order removes one inversion. */
  lemma {:induction false} SwapRemovesOne(p: seq<Entry>, x: Entry, y: Entry, q: seq<Entry>)
    requires After(x.name, y.name)
    ensures Inversions(p + [y, x] + q) == Inversions(p + [x, y] + q) - 1
  {
    if q == [] {
      SwapLastTwo(p, x, y);
      assert p + [x, y] + q == p + [x, y] && p + [y, x] + q == p + [y, x];
    } else {
      var n := |q| - 1;
      SwapRemovesOne(p, x, y, q[..n]);
      assert p + [x, y] + q == p + [x, y] + q[..n] + [q[n]] && p + [y, x] + q == p + [y, x] + q[..n] + [q[n]];
      InversionsWith(p + [x, y] + q[..n], q[n]);
      InversionsWith(p + [y, x] + q[..n], q[n]);
      LargerSwap(p, x, y, q[..n], q[n]);
    }
  }

  lemma SwapLastTwo(p: seq<Entry>, x: Entry, y: Entry)
    requires After(x.name, y.name)
    ensures Inversions(p + [y, x]) == Inversions(p + [x, y]) - 1
  {
    AfterIsOneWay(x.name, y.name);
    assert p + [x, y] == p + [x] + [y] && p + [y, x] == p + [y] + [x];
    InversionsWith(p + [x], y);
    InversionsWith(p, x);
    InversionsWith(p + [y], x);
    InversionsWith(p, y);
    LargerWith(p, x, y);
    LargerWith(p, y, x);
  }

  lemma SwapAt(s: seq<Entry>, i: nat)
    requires i + 1 < |s| && After(s[i].name, s[i + 1].name)
    ensures Inversions(s[i := s[i + 1]][i + 1 := s[i]]) == Inversions(s) - 1
  {
    var p, q := s[..i], s[i + 2..];
    SwapRemovesOne(p, s[i], s[i + 1], q);
    assert s == p + [s[i], s[i + 1]] + q;
    assert s[i := s[i + 1]][i + 1 := s[i]] == p + [s[i + 1], s[i]] + q;
  }

  // ----- the sort -----

  function NextGap(gap: nat): nat {
    var g := gap * 10 / 13;
    var h := if g == 9 || g == 10 then 11 else g;
    if h < 1 then 1 else h
  }

  /** The gap falls until it is 1: by a factor of 1.3, rounded down, but never to 9 or 10. */
  lemma GapFalls(gap: nat)
    ensures gap > 1 ==> 1 <= NextGap(gap) < gap
    ensures gap <= 1 ==> NextGap(gap) == 1
    ensures NextGap(gap) != 9 && NextGap(gap) != 10
    ensures NextGap(gap) != 11 && gap > 1 ==> 13 * NextGap(gap) <= 10 * gap < 13 * (NextGap(gap) + 1)
    ensures NextGap(gap) == 11 <==> 13 * 9 <= 10 * gap < 13 * 12
  {
  }

  /** One pass: without a swap everything a gap apart is in order; with one, a pass over
      neighbours has removed an inversion. */
  method Pass(ent: array<Entry>, gap: nat) returns (swapped: bool)
    requires gap >= 1
    modifies ent
    ensures multiset(ent[..]) == multiset(old(ent[..]))
    ensures !swapped ==> ent[..] == old(ent[..]) && SortedBy(ent[..], gap, ent.Length)
    ensures swapped && gap == 1 ==> Inversions(ent[..]) < Inversions(old(ent[..]))
  {
    swapped := false;
    var i := 0;
    while i + gap < ent.Length
      invariant 0 <= i && multiset(ent[..]) == multiset(old(ent[..]))
      invariant !swapped ==> ent[..] == old(ent[..]) && SortedBy(ent[..], gap, i)
      invariant swapped && gap == 1 ==> Inversions(ent[..]) < Inversions(old(ent[..]))
      decreases ent.Length - i
    {
      var j := i + gap;
      if After(ent[i].name, ent[j].name) {
        Exchange(ent, i, j);
        swapped := true;
      }
      i := i + 1;
    }
  }

  method Exchange(ent: array<Entry>, i: nat, j: nat)
    requires i < j < ent.Length && After(ent[i].name, ent[j].name)
    modifies ent
    ensures multiset(ent[..]) == multiset(old(ent[..]))
    ensures j == i + 1 ==> Inversions(ent[..]) < Inversions(old(ent[..]))
  {
    if j == i + 1 { SwapAt(ent[..], i); }
    ent[i], ent[j] := ent[j], ent[i];
    assert ent[..] == old(ent[..])[i := old(ent[j])][j := old(ent[i])];
  }

  /** http_dirls_sort */
  method Sort(ent: array<Entry>)
    modifies ent
    ensures Sorted(ent[..]) && multiset(ent[..]) == multiset(old(ent[..]))
  {
    var gap: nat := ent.Length;
    var swapped := true;
    while true
      invariant multiset(ent[..]) == multiset(old(ent[..]))
      decreases if gap > 1 then gap else 1, Inversions(ent[..])
    {
      GapFalls(gap);
      ghost var next := NextGap(gap);
      gap := gap * 10 / 13;
      if gap == 9 || gap == 10 { gap := 11; }
      if gap < 1 { gap := 1; }
      assert gap == next;
      swapped := Pass(ent, gap);
      if !(gap > 1 || swapped) { break; }
    }
    NeighboursSort(ent[..]);
  }
}
