/**
 * What simplifying a path promises, as laws on texts: "." and empty segments vanish, ".."
 * takes the segment before it away, a tidy path stays as it is.  The laws hold of the
 * normaliser, and they determine it.
 */
module PathLaws {
  import opened Bytes
  import opened PathSpec

  const PARENT: seq<byte> := [DOT, DOT]

  lemma BytesAre()
    ensures SLASH as char == '/' && DOT as char == '.' && SPACE as char == ' '
  {
  }

  /** A segment that stands for itself. */
  predicate Name(x: seq<byte>) {
    SLASH !in x && x != [] && x != [DOT] && x != PARENT
  }

  /** The text begins with a slash and then an empty segment that is not the last one, a ".", or
      a "..". */
  predicate Untidy(r: seq<byte>) {
    |r| >= 2 && r[0] == SLASH &&
    (r[1] == SLASH || (r[1] == DOT && (|r| == 2 || r[2] == SLASH || (r[2] == DOT && (|r| == 3 || r[3] == SLASH)))))
  }

  predicate Absolute(r: seq<byte>) { r != [] && r[0] == SLASH }

  ghost predicate Tidy(r: seq<byte>) {
    Absolute(r) && forall i :: 0 <= i < |r| ==> !Untidy(r[i..])
  }

  /** Leading spaces are dropped, and nothing else. */
  lemma {:induction false} SkipsSpaces(s: seq<byte>) returns (k: nat)
    ensures k <= |s| && SkipSpaces(s) == s[k..] && (forall i :: 0 <= i < k ==> s[i] as char == ' ')
    ensures k < |s| ==> s[k] as char != ' '
  {
    k := 0;
    if s != [] && s[0] == SPACE {
      var n := SkipsSpaces(s[1..]);
      assert s[1..][n..] == s[n + 1..] && forall i :: 0 < i <= n ==> s[i] == s[1..][i - 1];
      assert n < |s[1..]| ==> s[1..][n] == s[n + 1];
      k := n + 1;
    }
  }

  // ----- the laws -----

  type Map = seq<byte> -> seq<byte>

  /** A path without a leading slash is taken to have one. */
  ghost predicate Relative(f: Map) { forall p :: p != [] && p[0] != SLASH ==> f(p) == f([SLASH] + p) }

  /** ".." takes the name before it away, within a path and at its end. */
  ghost predicate Cancels(f: Map) {
    && (forall p, x, q :: Name(x) ==> f(p + [SLASH] + x + [SLASH, DOT, DOT, SLASH] + q) == f(p + [SLASH] + q))
    && forall p, x :: Name(x) ==> f(p + [SLASH] + x + [SLASH, DOT, DOT]) == f(p + [SLASH])
  }

  ghost predicate RootHasNoParent(f: Map) {
    && (forall q :: f([SLASH, DOT, DOT, SLASH] + q) == f([SLASH] + q))
    && f([SLASH, DOT, DOT]) == f([SLASH])
  }

  /** "." and an empty segment say nothing. */
  ghost predicate Vanishes(f: Map) {
    && (forall p, q :: f(p + [SLASH, DOT, SLASH] + q) == f(p + [SLASH] + q))
    && (forall p :: f(p + [SLASH, DOT]) == f(p + [SLASH]))
    && forall p, q :: f(p + [SLASH, SLASH] + q) == f(p + [SLASH] + q)
  }

  ghost predicate KeepsTidy(f: Map) { forall p :: Tidy(p) ==> f(p) == p }

  ghost predicate Laws(f: Map) {
    Relative(f) && Cancels(f) && RootHasNoParent(f) && Vanishes(f) && KeepsTidy(f)
  }

  // ----- the laws determine the function -----

  /** The first place where a text is not tidy. */
  lemma FirstUntidy(r: seq<byte>, n: nat) returns (i: nat)
    requires n <= |r| && exists k :: 0 <= k < n && Untidy(r[k..])
    ensures i < |r| && Untidy(r[i..]) && forall k :: 0 <= k < i ==> !Untidy(r[k..])
  {
    if k :| 0 <= k < n - 1 && Untidy(r[k..]) {
      i := FirstUntidy(r, n - 1);
    } else {
      i := n - 1;
    }
  }

  lemma {:induction false} LastSlash(r: seq<byte>, i: nat) returns (k: nat)
    requires Absolute(r) && 0 < i <= |r|
    ensures k < i && r[k] == SLASH && SLASH !in r[k + 1..i]
  {
    if r[i - 1] == SLASH {
      k := i - 1;
    } else {
      k := LastSlash(r, i - 1);
      assert r[k + 1..i] == r[k + 1..i - 1] + [r[i - 1]];
    }
  }

  /** In front of the first untidy place there is a name. */
  lemma NameBefore(r: seq<byte>, i: nat) returns (k: nat)
    requires Absolute(r) && 0 < i < |r| && r[i] == SLASH && forall j :: 0 <= j < i ==> !Untidy(r[j..])
    ensures k < i && r[k] == SLASH && Name(r[k + 1..i])
  {
    k := LastSlash(r, i);
    var x, t := r[k + 1..i], r[k..];
    assert !Untidy(t);
    assert forall j :: 0 <= j < |x| ==> t[1 + j] == x[j];
    assert t[0] == SLASH && t[1 + |x|] == SLASH;
  }

  lemma DropSlash(f: Map, r: seq<byte>, i: nat)
    requires Vanishes(f) && i + 1 < |r| && r[i] == r[i + 1] == SLASH
    ensures f(r) == f(r[..i] + [SLASH] + r[i + 2..])
  {
    assert r == r[..i] + [SLASH, SLASH] + r[i + 2..];
  }

  lemma DropDot(f: Map, r: seq<byte>, i: nat)
    requires Vanishes(f) && i + 2 < |r| && r[i] == r[i + 2] == SLASH && r[i + 1] == DOT
    ensures f(r) == f(r[..i] + [SLASH] + r[i + 3..])
  {
    assert r == r[..i] + [SLASH, DOT, SLASH] + r[i + 3..];
  }

  lemma DropLastDot(f: Map, r: seq<byte>, i: nat)
    requires Vanishes(f) && i + 2 == |r| && r[i] == SLASH && r[i + 1] == DOT
    ensures f(r) == f(r[..i] + [SLASH])
  {
    assert r == r[..i] + [SLASH, DOT];
  }

  lemma DropName(f: Map, r: seq<byte>, k: nat, i: nat)
    requires Cancels(f) && k < i && i + 3 < |r| && r[k] == SLASH && Name(r[k + 1..i])
    requires r[i] == r[i + 3] == SLASH && r[i + 1] == r[i + 2] == DOT
    ensures f(r) == f(r[..k] + [SLASH] + r[i + 4..])
  {
    var p, x, q := r[..k], r[k + 1..i], r[i + 4..];
    assert r == p + [SLASH] + x + [SLASH, DOT, DOT, SLASH] + q;
  }

  lemma DropLastName(f: Map, r: seq<byte>, k: nat, i: nat)
    requires Cancels(f) && k < i && i + 3 == |r| && r[k] == SLASH && Name(r[k + 1..i])
    requires r[i] == SLASH && r[i + 1] == r[i + 2] == DOT
    ensures f(r) == f(r[..k] + [SLASH])
  {
    var p, x := r[..k], r[k + 1..i];
    assert r == p + [SLASH] + x + [SLASH, DOT, DOT];
  }

  lemma DropAtRoot(f: Map, r: seq<byte>)
    requires RootHasNoParent(f) && |r| >= 3 && r[0] == SLASH && r[1] == r[2] == DOT && (|r| == 3 || r[3] == SLASH)
    ensures f(r) == f([SLASH] + r[if |r| == 3 then 3 else 4..])
  {
    if |r| == 3 {
      assert r == [SLASH, DOT, DOT] && [SLASH] + r[3..] == [SLASH];
    } else {
      assert r == [SLASH, DOT, DOT, SLASH] + r[4..];
    }
  }

  /** A path that is not tidy has the same value as a shorter one, for any two functions with
      the laws. */
  lemma Shorter(f: Map, g: Map, r: seq<byte>) returns (s: seq<byte>)
    requires Laws(f) && Laws(g) && Absolute(r) && !Tidy(r)
    ensures |s| < |r| && Absolute(s) && f(r) == f(s) && g(r) == g(s)
  {
    var i := FirstUntidy(r, |r|);
    var t := r[i..];
    if t[1] == SLASH {
      s := r[..i] + [SLASH] + r[i + 2..];
      DropSlash(f, r, i);
      DropSlash(g, r, i);
    } else if |t| == 2 {
      s := r[..i] + [SLASH];
      DropLastDot(f, r, i);
      DropLastDot(g, r, i);
    } else if t[2] == SLASH {
      s := r[..i] + [SLASH] + r[i + 3..];
      DropDot(f, r, i);
      DropDot(g, r, i);
    } else {
      s := WithoutParent(f, g, r, i);
    }
  }

  lemma WithoutParent(f: Map, g: Map, r: seq<byte>, i: nat) returns (s: seq<byte>)
    requires Laws(f) && Laws(g) && Absolute(r) && i + 2 < |r| && forall k :: 0 <= k < i ==> !Untidy(r[k..])
    requires r[i] == SLASH && r[i + 1] == r[i + 2] == DOT && (|r| == i + 3 || r[i + 3] == SLASH)
    ensures |s| < |r| && Absolute(s) && f(r) == f(s) && g(r) == g(s)
  {
    if i == 0 {
      s := [SLASH] + r[if |r| == 3 then 3 else 4..];
      DropAtRoot(f, r);
      DropAtRoot(g, r);
    } else {
      var k := NameBefore(r, i);
      if |r| == i + 3 {
        s := r[..k] + [SLASH];
        DropLastName(f, r, k, i);
        DropLastName(g, r, k, i);
      } else {
        s := r[..k] + [SLASH] + r[i + 4..];
        DropName(f, r, k, i);
        DropName(g, r, k, i);
      }
    }
  }

  lemma {:induction false} Determined(f: Map, g: Map, r: seq<byte>)
    requires Laws(f) && Laws(g) && Absolute(r)
    ensures f(r) == g(r)
    decreases |r|
  {
    if !Tidy(r) {
      var s := Shorter(f, g, r);
      Determined(f, g, s);
    }
  }

  /** Every function with these laws simplifies as the normaliser does. */
  lemma LawsDetermine(f: Map, path: seq<byte>)
    requires Laws(f) && path != []
    ensures f(path) == Simplified(path)
  {
    LawsHold();
    if path[0] == SLASH {
      Determined(f, Total, path);
    } else {
      Determined(f, Total, [SLASH] + path);
    }
  }

  // ----- segments -----

  function Total(p: seq<byte>): seq<byte> { if p == [] then [] else Simplified(p) }

  lemma WithLastBehind(s: seq<seq<byte>>, t: seq<seq<byte>>, a: seq<byte>)
    requires t != []
    ensures WithLast(s + t, a) == s + WithLast(t, a)
  {
    assert (s + t)[..|s + t| - 1] == s + t[..|t| - 1];
  }

  lemma {:induction false} SplitAround(a: seq<byte>, b: seq<byte>)
    ensures Split(a + [SLASH] + b) == Split(a) + Split(b)
  {
    if b == [] {
      SplitSlash(a);
      assert a + [SLASH] + b == a + [SLASH];
    } else {
      var n := |b| - 1;
      var front := a + [SLASH] + b[..n];
      SplitAround(a, b[..n]);
      assert b == b[..n] + [b[n]] && a + [SLASH] + b == front + [b[n]];
      SplitGrows(front, b[..n], Split(a), b[n]);
    }
  }

  lemma SplitGrows(front: seq<byte>, b: seq<byte>, s: seq<seq<byte>>, c: byte)
    requires Split(front) == s + Split(b)
    ensures Split(front + [c]) == s + Split(b + [c])
  {
    if c == SLASH {
      SplitSlash(front);
      SplitSlash(b);
      assert (s + Split(b)) + [[]] == s + (Split(b) + [[]]);
    } else {
      SplitOne(front, c);
      SplitOne(b, c);
      WithLastBehind(s, Split(b), [c]);
    }
  }

  /** The segments in front of a slash. */
  function Front(p: seq<byte>): seq<seq<byte>> { if p == [] then [] else Split(Body(p)) }

  lemma SegmentsAround(p: seq<byte>, q: seq<byte>)
    ensures Split(Body(p + [SLASH] + q)) == Front(p) + Split(q)
  {
    var all := p + [SLASH] + q;
    if p == [] {
      assert Body(all) == q;
      assert [] + Split(q) == Split(q);
    } else {
      assert Body(all) == Body(p) + [SLASH] + q;
      SplitAround(Body(p), q);
    }
  }

  lemma SplitPlain(x: seq<byte>)
    requires SLASH !in x
    ensures Split(x) == [x]
  {
    SplitAppend([], x);
    assert [] + x == x;
    var none: seq<seq<byte>> := [[]];
    assert Split([]) == none && WithLast(none, x) == [x];
  }

  function ResolveFrom(stack: seq<seq<byte>>, segs: seq<seq<byte>>): seq<seq<byte>> {
    if segs == [] then stack else Step(ResolveFrom(stack, segs[..|segs| - 1]), segs[|segs| - 1])
  }

  lemma {:induction false} ResolveBoth(a: seq<seq<byte>>, b: seq<seq<byte>>)
    ensures Resolve(a + b) == ResolveFrom(Resolve(a), b)
  {
    if b == [] {
      assert a + b == a;
    } else {
      ResolveBoth(a, b[..|b| - 1]);
      assert (a + b)[..|a + b| - 1] == a + b[..|b| - 1];
    }
  }

  /** Segments that leave the stack as it was can be left out in front of others. */
  lemma SameRebuild(a: seq<seq<byte>>, mid: seq<seq<byte>>, b: seq<seq<byte>>)
    requires Resolve(a + mid) == Resolve(a) && b != []
    ensures Rebuild((a + mid) + b) == Rebuild(a + b)
  {
    ResolveBoth(a + mid, b);
    ResolveBoth(a, b);
    assert ((a + mid) + b)[|a + mid + b| - 1] == b[|b| - 1] == (a + b)[|a + b| - 1];
  }

  lemma TotalIs(path: seq<byte>, segs: seq<seq<byte>>)
    requires path != [] && Split(Body(path)) == segs
    ensures segs != [] && Total(path) == Rebuild(segs)
  {
  }

  lemma Grouped(a: seq<seq<byte>>, b: seq<seq<byte>>, c: seq<seq<byte>>)
    ensures a + (b + c) == (a + b) + c
  {
  }

  /** Something between two slashes that leaves the stack as it was. */
  lemma LeftOut(path: seq<byte>, short: seq<byte>, p: seq<byte>, mid: seq<byte>, q: seq<byte>)
    requires path == p + [SLASH] + (mid + [SLASH] + q) && short == p + [SLASH] + q
    requires Resolve(Front(p) + Split(mid)) == Resolve(Front(p))
    ensures Total(path) == Total(short)
  {
    SegmentsAround(p, mid + [SLASH] + q);
    SplitAround(mid, q);
    SegmentsAround(p, q);
    Grouped(Front(p), Split(mid), Split(q));
    SameRebuild(Front(p), Split(mid), Split(q));
    TotalIs(path, (Front(p) + Split(mid)) + Split(q));
    TotalIs(short, Front(p) + Split(q));
  }

  /** The same at the end: a path that ends in it keeps a trailing slash. */
  lemma LeftOutLast(path: seq<byte>, short: seq<byte>, p: seq<byte>, mid: seq<byte>)
    requires path == p + [SLASH] + mid && short == p + [SLASH]
    requires Resolve(Front(p) + Split(mid)) == Resolve(Front(p)) && Special(Split(mid)[|Split(mid)| - 1])
    ensures Total(path) == Total(short)
  {
    SegmentsAround(p, mid);
    SegmentsAround(p, []);
    assert p + [SLASH] + [] == short;
    var a, b := Front(p), Split(mid);
    assert (a + b)[|a + b| - 1] == b[|b| - 1];
    StepsNowhere(a, []);
    assert Split([]) == [[]] && (a + [[]])[|a|] == [];
    TotalIs(path, a + b);
    TotalIs(short, a + [[]]);
  }

  lemma StepsBack(a: seq<seq<byte>>, x: seq<byte>)
    requires !Special(x)
    ensures Resolve(a + [x, PARENT]) == Resolve(a)
  {
    var b := a + [x, PARENT];
    assert b[..|b| - 1] == a + [x] && (a + [x])[..|a|] == a;
    assert (Resolve(a) + [x])[..|Resolve(a)|] == Resolve(a);
  }

  lemma StepsNowhere(a: seq<seq<byte>>, x: seq<byte>)
    requires x == [] || x == [DOT] || (x == PARENT && Resolve(a) == [])
    ensures Resolve(a + [x]) == Resolve(a)
  {
    assert (a + [x])[..|a|] == a;
  }

  // ----- the laws hold -----

  lemma NameCancels(a: seq<seq<byte>>, x: seq<byte>)
    requires Name(x)
    ensures Split(x + [SLASH] + PARENT) == [x, PARENT] && Resolve(a + Split(x + [SLASH] + PARENT)) == Resolve(a)
  {
    SplitAround(x, PARENT);
    SplitPlain(x);
    SplitPlain(PARENT);
    assert [x] + [PARENT] == [x, PARENT];
    StepsBack(a, x);
  }

  lemma CancelWithin(p: seq<byte>, x: seq<byte>, q: seq<byte>, path: seq<byte>)
    requires Name(x) && path == p + [SLASH] + x + [SLASH, DOT, DOT, SLASH] + q
    ensures Total(path) == Total(p + [SLASH] + q)
  {
    NameCancels(Front(p), x);
    CancelText(p, x, q);
    LeftOut(path, p + [SLASH] + q, p, x + [SLASH] + PARENT, q);
  }

  lemma CancelText(p: seq<byte>, x: seq<byte>, q: seq<byte>)
    ensures p + [SLASH] + x + [SLASH, DOT, DOT, SLASH] + q == p + [SLASH] + (x + [SLASH] + PARENT + [SLASH] + q)
    ensures p + [SLASH] + x + [SLASH, DOT, DOT] == p + [SLASH] + (x + [SLASH] + PARENT)
  {
  }

  lemma CancelLast(p: seq<byte>, x: seq<byte>, path: seq<byte>)
    requires Name(x) && path == p + [SLASH] + x + [SLASH, DOT, DOT]
    ensures Total(path) == Total(p + [SLASH])
  {
    NameCancels(Front(p), x);
    CancelText(p, x, []);
    LeftOutLast(path, p + [SLASH], p, x + [SLASH] + PARENT);
  }

  lemma VanishWithin(p: seq<byte>, x: seq<byte>, q: seq<byte>, path: seq<byte>)
    requires (x == [] || x == [DOT]) && path == p + ([SLASH] + x + [SLASH]) + q
    ensures Total(path) == Total(p + [SLASH] + q)
  {
    SplitPlain(x);
    StepsNowhere(Front(p), x);
    assert path == p + [SLASH] + (x + [SLASH] + q);
    LeftOut(path, p + [SLASH] + q, p, x, q);
  }

  lemma VanishLast(p: seq<byte>, path: seq<byte>)
    requires path == p + [SLASH, DOT]
    ensures Total(path) == Total(p + [SLASH])
  {
    SplitPlain([DOT]);
    StepsNowhere(Front(p), [DOT]);
    assert path == p + [SLASH] + [DOT];
    LeftOutLast(path, p + [SLASH], p, [DOT]);
  }

  lemma RootLaw(q: seq<byte>, path: seq<byte>)
    requires path == [SLASH, DOT, DOT, SLASH] + q
    ensures Total(path) == Total([SLASH] + q)
  {
    RootText(q);
    AtRoot(path, [SLASH] + q, [], q);
  }

  lemma RootText(q: seq<byte>)
    ensures [SLASH, DOT, DOT, SLASH] + q == [] + [SLASH] + (PARENT + [SLASH] + q) && [] + [SLASH] + q == [SLASH] + q
  {
  }

  lemma AtRoot(path: seq<byte>, short: seq<byte>, p: seq<byte>, q: seq<byte>)
    requires path == p + [SLASH] + (PARENT + [SLASH] + q) && short == p + [SLASH] + q && p == []
    ensures Total(path) == Total(short)
  {
    SplitPlain(PARENT);
    StepsNowhere(Front(p), PARENT);
    LeftOut(path, short, p, PARENT, q);
  }

  lemma RootLast(path: seq<byte>)
    requires path == [SLASH, DOT, DOT]
    ensures Total(path) == Total([SLASH])
  {
    SplitPlain(PARENT);
    StepsNowhere([], PARENT);
    assert path == [] + [SLASH] + PARENT && [] + [SLASH] == [SLASH];
    LeftOutLast(path, [SLASH], [], PARENT);
  }

  // ----- tidy paths -----

  lemma JoinWithLast(r: seq<seq<byte>>, a: seq<byte>)
    requires r != []
    ensures Join(WithLast(r, a)) == Join(r) + a
  {
    var s := WithLast(r, a);
    assert s[..|s| - 1] == r[..|r| - 1];
  }

  lemma {:induction false} JoinSplit(p: seq<byte>)
    ensures Join(Split(p)) == [SLASH] + p
  {
    if p == [] {
      var none: seq<seq<byte>> := [[]];
      assert none[..0] == [] && Join(none) == Join([]) + [SLASH] + [];
    } else {
      var n := |p| - 1;
      var r := Split(p[..n]);
      JoinSplit(p[..n]);
      assert p == p[..n] + [p[n]];
      if p[n] == SLASH {
        assert (r + [[]])[..|r|] == r;
      } else {
        JoinWithLast(r, [p[n]]);
      }
    }
  }

  lemma {:induction false} JoinFrom(segs: seq<seq<byte>>, k: nat)
    requires k < |segs|
    ensures Join(segs) == Join(segs[..k]) + ([SLASH] + segs[k] + Join(segs[k + 1..]))
  {
    var n := |segs| - 1;
    if k == n {
      assert segs[k + 1..] == [];
      assert [SLASH] + segs[k] + [] == [SLASH] + segs[k];
    } else {
      JoinFrom(segs[..n], k);
      var rest := segs[k + 1..];
      assert segs[..n][..k] == segs[..k] && segs[..n][k + 1..] == rest[..|rest| - 1];
      assert rest[|rest| - 1] == segs[n];
    }
  }

  /** No segment of a tidy path but an empty last one is special. */
  lemma TidySegment(r: seq<byte>, segs: seq<seq<byte>>, k: nat)
    requires Tidy(r) && r == Join(segs) && k < |segs| && (k < |segs| - 1 || segs[k] != [])
    ensures !Special(segs[k])
  {
    var i, x, rest := |Join(segs[..k])|, segs[k], Join(segs[k + 1..]);
    JoinFrom(segs, k);
    SuffixOf(r, Join(segs[..k]), [SLASH] + x + rest);
    assert !Untidy(r[i..]);
    if k == |segs| - 1 { assert segs[k + 1..] == [] && rest == []; }
    SpecialIsUntidy(x, rest);
  }

  lemma SuffixOf(r: seq<byte>, a: seq<byte>, b: seq<byte>)
    requires r == a + b
    ensures |a| <= |r| && r[|a|..] == b && (b != [] ==> |a| < |r|)
  {
  }

  lemma SpecialIsUntidy(x: seq<byte>, rest: seq<byte>)
    requires (rest != [] ==> rest[0] == SLASH) && (rest == [] ==> x != [])
    ensures Special(x) ==> Untidy([SLASH] + x + rest)
  {
    var t := [SLASH] + x + rest;
    if x == [DOT] { assert t[1] == DOT && (|t| > 2 ==> t[2] == SLASH); }
    if x == [DOT, DOT] { assert t[1] == t[2] == DOT && (|t| > 3 ==> t[3] == SLASH); }
  }

  lemma TidyStays(r: seq<byte>)
    requires Tidy(r)
    ensures Simplified(r) == r
  {
    var segs := Split(Body(r));
    JoinSplit(Body(r));
    assert [SLASH] + r[1..] == r;
    SplitSlashFree(Body(r));
    var n := |segs| - 1;
    forall k | 0 <= k < n ensures !Special(segs[k]) { TidySegment(r, segs, k); }
    ResolveOfClean(segs[..n]);
    if segs[n] == [] {
      assert Join(segs) == Join(segs[..n]) + [SLASH] + [];
    } else {
      TidySegment(r, segs, n);
      assert segs == segs[..n] + [segs[n]];
    }
  }

  lemma VanishLaw()
    ensures Vanishes(Total)
  {
    assert [SLASH] + [DOT] + [SLASH] == [SLASH, DOT, SLASH] && [SLASH] + [] + [SLASH] == [SLASH, SLASH];
    forall p, q ensures Total(p + [SLASH, DOT, SLASH] + q) == Total(p + [SLASH] + q) {
      VanishWithin(p, [DOT], q, p + [SLASH, DOT, SLASH] + q);
    }
    forall p, q ensures Total(p + [SLASH, SLASH] + q) == Total(p + [SLASH] + q) {
      VanishWithin(p, [], q, p + [SLASH, SLASH] + q);
    }
    forall p ensures Total(p + [SLASH, DOT]) == Total(p + [SLASH]) { VanishLast(p, p + [SLASH, DOT]); }
  }

  lemma LawsHold()
    ensures Laws(Total)
  {
    forall p | p != [] && p[0] != SLASH ensures Total(p) == Total([SLASH] + p) {
      assert Body([SLASH] + p) == p == Body(p);
    }
    forall p, x, q | Name(x)
      ensures Total(p + [SLASH] + x + [SLASH, DOT, DOT, SLASH] + q) == Total(p + [SLASH] + q)
    {
      CancelWithin(p, x, q, p + [SLASH] + x + [SLASH, DOT, DOT, SLASH] + q);
    }
    forall p, x | Name(x) ensures Total(p + [SLASH] + x + [SLASH, DOT, DOT]) == Total(p + [SLASH]) {
      CancelLast(p, x, p + [SLASH] + x + [SLASH, DOT, DOT]);
    }
    forall q ensures Total([SLASH, DOT, DOT, SLASH] + q) == Total([SLASH] + q) {
      RootLaw(q, [SLASH, DOT, DOT, SLASH] + q);
    }
    RootLast([SLASH, DOT, DOT]);
    VanishLaw();
    forall p | Tidy(p) ensures Total(p) == p { TidyStays(p); }
  }
}
