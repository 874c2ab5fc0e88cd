/**
 * What simplifying a URL path means: split it at the slashes, drop empty and "."
 * segments, let ".." cancel the segment before it, and join what is left.
 */
module PathSpec {
  import opened Bytes

  const SPACE: byte := 32
  const DOT: byte := 46
  const SLASH: byte := 47

  function SkipSpaces(s: seq<byte>): seq<byte> {
    if s != [] && s[0] == SPACE then SkipSpaces(s[1..]) else s
  }

  /** The parts between slashes; always at least one. */
  function Split(p: seq<byte>): (segs: seq<seq<byte>>)
    ensures segs != []
  {
    if p == [] then [[]]
    else
      var r, n := Split(p[..|p| - 1]), |p| - 1;
      if p[n] == SLASH then r + [[]] else r[..|r| - 1] + [r[|r| - 1] + [p[n]]]
  }

  predicate Special(seg: seq<byte>) {
    seg == [] || seg == [DOT] || seg == [DOT, DOT]
  }

  function Step(stack: seq<seq<byte>>, seg: seq<byte>): seq<seq<byte>> {
    if seg == [DOT, DOT] then (if stack == [] then [] else stack[..|stack| - 1])
    else if Special(seg) then stack
    else stack + [seg]
  }

  function Resolve(segs: seq<seq<byte>>): seq<seq<byte>> {
    if segs == [] then [] else Step(Resolve(segs[..|segs| - 1]), segs[|segs| - 1])
  }

  function Join(segs: seq<seq<byte>>): (r: seq<byte>)
    ensures segs != [] ==> r != [] && r[0] == SLASH
  {
    if segs == [] then [] else Join(segs[..|segs| - 1]) + [SLASH] + segs[|segs| - 1]
  }

  /** The path without its leading slash, if it has one. */
  function Body(path: seq<byte>): seq<byte>
    requires path != []
  {
    if path[0] == SLASH then path[1..] else path
  }

  /** A path that ends in a dropped segment keeps a trailing slash. */
  function Rebuild(segs: seq<seq<byte>>): seq<byte>
    requires segs != []
  {
    Join(Resolve(segs)) + if Special(segs[|segs| - 1]) then [SLASH] else []
  }

  function Simplified(path: seq<byte>): seq<byte>
    requires path != []
  {
    Rebuild(Split(Body(path)))
  }

  ghost predicate SlashFree(segs: seq<seq<byte>>) {
    forall i :: 0 <= i < |segs| ==> SLASH !in segs[i]
  }

  ghost predicate Clean(segs: seq<seq<byte>>) {
    SlashFree(segs) && forall i :: 0 <= i < |segs| ==> !Special(segs[i])
  }

  lemma {:induction false} SplitSlashFree(p: seq<byte>)
    ensures SlashFree(Split(p))
  {
    if p != [] { SplitSlashFree(p[..|p| - 1]); }
  }

  lemma {:induction false} ResolveClean(segs: seq<seq<byte>>)
    requires SlashFree(segs)
    ensures Clean(Resolve(segs))
  {
    if segs != [] { ResolveClean(segs[..|segs| - 1]); }
  }

  lemma {:induction false} ResolveOfClean(segs: seq<seq<byte>>)
    requires Clean(segs)
    ensures Resolve(segs) == segs
  {
    if segs != [] {
      ResolveOfClean(segs[..|segs| - 1]);
      assert segs == segs[..|segs| - 1] + [segs[|segs| - 1]];
    }
  }

  function WithLast(r: seq<seq<byte>>, a: seq<byte>): (q: seq<seq<byte>>)
    requires r != []
    ensures q != []
  {
    r[..|r| - 1] + [r[|r| - 1] + a]
  }

  lemma WithLastTwice(r: seq<seq<byte>>, a: seq<byte>, b: seq<byte>)
    requires r != []
    ensures WithLast(WithLast(r, a), b) == WithLast(r, a + b)
  {
    assert (r[|r| - 1] + a) + b == r[|r| - 1] + (a + b);
  }

  lemma SplitOne(p: seq<byte>, c: byte)
    requires c != SLASH
    ensures Split(p + [c]) == WithLast(Split(p), [c])
  {
    assert (p + [c])[..|p|] == p;
  }

  /** Text without slashes extends the last part. */
  lemma {:induction false} SplitAppend(p: seq<byte>, seg: seq<byte>)
    requires SLASH !in seg
    ensures Split(p + seg) == WithLast(Split(p), seg)
  {
    if seg == [] {
      assert p + seg == p;
      var r := Split(p);
      assert r[|r| - 1] + [] == r[|r| - 1];
      assert WithLast(r, []) == r;
    } else {
      var n := |seg| - 1;
      SplitAppend(p, seg[..n]);
      SplitOne(p + seg[..n], seg[n]);
      WithLastTwice(Split(p), seg[..n], [seg[n]]);
      assert seg == seg[..n] + [seg[n]];
      assert (p + seg[..n]) + [seg[n]] == p + seg;
    }
  }

  lemma SplitSlash(p: seq<byte>)
    ensures Split(p + [SLASH]) == Split(p) + [[]]
  {
    assert (p + [SLASH])[..|p|] == p;
  }

  /** Splitting a joined path, past its first slash, gives the parts back. */
  lemma {:induction false} SplitJoin(segs: seq<seq<byte>>)
    requires SlashFree(segs) && segs != []
    ensures Split(Join(segs)[1..]) == segs
  {
    var n := |segs| - 1;
    var init, seg := segs[..n], segs[n];
    assert segs == init + [seg];
    if init == [] {
      assert Join(segs)[1..] == [] + seg;
      SplitAppend([], seg);
    } else {
      SplitJoin(init);
      SplitSlash(Join(init)[1..]);
      SplitAppend(Join(init)[1..] + [SLASH], seg);
      assert (init + [[]])[..n] == init && [] + seg == seg;
      assert Join(segs)[1..] == Join(init)[1..] + [SLASH] + seg;
    }
  }

  /** The result begins with a slash, and simplifying it again changes nothing. */
  lemma SimplifiedIsFixedPoint(path: seq<byte>)
    requires path != []
    ensures var r := Simplified(path);
            r != [] && r[0] == SLASH && SkipSpaces(r) == r && Simplified(r) == r
  {
    var segs := Split(Body(path));
    var st, last := Resolve(segs), segs[|segs| - 1];
    SplitSlashFree(Body(path));
    ResolveClean(segs);
    ResolveOfClean(st);
    var r := Simplified(path);
    if Special(last) {
      if st == [] {
        assert Split(Body(r)) == [[]];
      } else {
        SplitJoin(st);
        SplitSlash(Join(st)[1..]);
        assert Body(r) == Join(st)[1..] + [SLASH];
      }
      assert Split(Body(r)) == st + [[]];
      assert (st + [[]])[..|st|] == st;
    } else {
      assert r == Join(st);
      SplitJoin(st);
      assert st[|st| - 1] == last;
    }
  }

  // ----- simplifying introduces no byte but the slash -----

  ghost predicate Without(segs: seq<seq<byte>>, b: byte) {
    forall i :: 0 <= i < |segs| ==> b !in segs[i]
  }

  lemma {:induction false} SplitWithout(p: seq<byte>, b: byte)
    requires b !in p
    ensures Without(Split(p), b)
  {
    if p != [] { SplitWithout(p[..|p| - 1], b); }
  }

  lemma {:induction false} ResolveWithout(segs: seq<seq<byte>>, b: byte)
    requires Without(segs, b)
    ensures Without(Resolve(segs), b)
  {
    if segs != [] { ResolveWithout(segs[..|segs| - 1], b); }
  }

  lemma {:induction false} JoinWithout(segs: seq<seq<byte>>, b: byte)
    requires Without(segs, b) && b != SLASH
    ensures b !in Join(segs)
  {
    if segs != [] { JoinWithout(segs[..|segs| - 1], b); }
  }

  lemma SimplifiedWithout(path: seq<byte>, b: byte)
    requires path != [] && b !in path && b != SLASH
    ensures b !in Simplified(path)
  {
    SplitWithout(Body(path), b);
    ResolveWithout(Split(Body(path)), b);
    JoinWithout(Resolve(Split(Body(path))), b);
  }

  lemma {:induction false} SkipSpacesSuffix(s: seq<byte>, b: byte)
    requires b !in s
    ensures b !in SkipSpaces(s)
  {
    if s != [] && s[0] == SPACE { SkipSpacesSuffix(s[1..], b); }
  }
}
