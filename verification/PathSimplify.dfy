/**
 * buffer_path_simplify (buffer.c): one pass over the path with a read cursor `walk`, a
 * write cursor `out` and the position `slash` of the segment being written.  Source and
 * destination may be the same buffer.
 */
module PathSimplify {
  import opened Bytes
  import opened PathSpec

  /** The last two characters read, in a 16-bit word.  `char` is signed: a byte above 127
      fills the upper half with ones. */
  function Shift(pre: nat, b: byte): nat {
    if b < 128 then pre * 256 % 65536 + b else 0xFF00 + b
  }

  const DOT_DOT: nat := DOT * 256 + DOT
  const SLASH_DOT: nat := SLASH * 256 + DOT

  /** `pre` remembers the end of the text `read`. */
  ghost predicate Remembers(pre: nat, read: seq<byte>)
    requires read != []
  {
    && pre < 65536
    && pre % 256 == read[|read| - 1]
    && (|read| >= 2 && read[|read| - 1] < 128 ==> pre / 256 == read[|read| - 2])
    && (|read| == 1 && read[0] < 128 ==> pre / 256 == 0)
  }

  lemma ShiftParts(pre: nat, b: byte)
    ensures Shift(pre, b) < 65536 && Shift(pre, b) % 256 == b
    ensures b < 128 ==> Shift(pre, b) / 256 == pre % 256
  {
    var q, r := pre / 256, pre % 256;
    assert pre * 256 == 65536 * q + 256 * r;
  }

  lemma ShiftRemembers(pre: nat, read: seq<byte>, b: byte)
    requires read != [] && Remembers(pre, read)
    ensures Remembers(Shift(pre, b), read + [b])
  {
    ShiftParts(pre, b);
  }

  /** At the end of a segment the two tests of the code recognise ".." and "." exactly. */
  lemma TokenTests(pre: nat, before: seq<byte>, cur: seq<byte>)
    requires SLASH !in cur && Remembers(pre, before + [SLASH] + cur)
    ensures (1 + |cur| == 3 && pre == DOT_DOT) <==> cur == [DOT, DOT]
    ensures (1 + |cur| == 1 || pre == SLASH_DOT) <==> cur == [] || cur == [DOT]
  {
    var read := before + [SLASH] + cur;
    var n := |read|;
    assert pre == 256 * (pre / 256) + pre % 256;
    if |cur| >= 1 { assert read[n - 1] == cur[|cur| - 1]; }
    if |cur| >= 2 { assert read[n - 2] == cur[|cur| - 2] && cur[|cur| - 2] in cur; }
  }

  /** The write cursor stands behind the joined stack and the segment under way. */
  ghost predicate Writing(text: seq<byte>, stack: seq<seq<byte>>, cur: seq<byte>, slash: nat) {
    text == Join(stack) + [SLASH] + cur && slash == |Join(stack)| && Clean(stack) && SLASH !in cur
  }

  /** The finished segments, resolved, and the unfinished one, after reading `p`. */
  function Parsed(p: seq<byte>): (seq<seq<byte>>, seq<byte>) {
    if p == [] then ([], [])
    else
      var (stack, cur) := Parsed(p[..|p| - 1]);
      if p[|p| - 1] == SLASH then (Step(stack, cur), []) else (stack, cur + [p[|p| - 1]])
  }

  lemma {:induction false} ParsedIsSplit(p: seq<byte>)
    ensures var segs := Split(p);
            Parsed(p) == (Resolve(segs[..|segs| - 1]), segs[|segs| - 1])
  {
    if p != [] {
      ParsedIsSplit(p[..|p| - 1]);
      var r := Split(p[..|p| - 1]);
      assert (r + [[]])[..|r|] == r;
      assert (r[..|r| - 1] + [r[|r| - 1] + [p[|p| - 1]]])[..|r| - 1] == r[..|r| - 1];
    }
  }

  /** `k` characters of the body were read. */
  ghost predicate Reading(body: seq<byte>, k: nat, stack: seq<seq<byte>>, cur: seq<byte>) {
    k <= |body| && Parsed(body[..k]) == (stack, cur)
  }

  lemma {:induction false} ReadOne(body: seq<byte>, k: nat, stack: seq<seq<byte>>, cur: seq<byte>)
    requires k < |body| && Reading(body, k, stack, cur)
    ensures if body[k] == SLASH then Reading(body, k + 1, Step(stack, cur), [])
            else Reading(body, k + 1, stack, cur + [body[k]])
  {
    assert body[..k + 1][..k] == body[..k];
  }

  /** The walk back to the previous slash, on ".." . */
  method Pop(dest: array<byte>, out0: nat, ghost stack: seq<seq<byte>>) returns (out: nat)
    requires out0 < dest.Length && dest[..out0] == Join(stack) && Clean(stack)
    ensures out == |Join(Step(stack, [DOT, DOT]))| <= out0
    ensures dest[..out] == Join(Step(stack, [DOT, DOT]))
    ensures stack != [] ==> out < out0 && dest[out] == SLASH
  {
    out := out0;
    if out > 0 {
      ghost var n := |stack| - 1;
      ghost var init := Join(stack[..n]);
      assert dest[..out0] == init + [SLASH] + stack[n];
      forall m | |init| < m < out0 ensures dest[m] != SLASH {
        assert dest[m] == dest[..out0][m] == stack[n][m - |init| - 1];
      }
      assert dest[|init|] == dest[..out0][|init|] == SLASH;
      out := out - 1;
      while out > 0 && dest[out] != SLASH
        invariant |init| <= out < out0
      {
        out := out - 1;
      }
      assert dest[..out] == dest[..out0][..out] == init;
    }
  }

  /** The end of a segment: drop it, or let it cancel the one before, or keep it. */
  method EndSegment(dest: array<byte>, out0: nat, slash: nat, pre: nat, last: bool,
                    ghost before: seq<byte>, ghost stack: seq<seq<byte>>, ghost cur: seq<byte>)
    returns (out: nat)
    requires out0 < dest.Length && Writing(dest[..out0], stack, cur, slash)
    requires Remembers(pre, before + [SLASH] + cur)
    ensures out <= out0
    ensures !last ==> dest[..out] == Join(Step(stack, cur)) && out == |Join(Step(stack, cur))|
    ensures last ==> dest[..out] == Join(Step(stack, cur)) + if Special(cur) then [SLASH] else []
  {
    TokenTests(pre, before, cur);
    assert dest[..slash] == dest[..out0][..slash] == Join(stack);
    assert dest[slash] == dest[..out0][slash] == SLASH;
    out := out0;
    var toklen := out - slash;
    if toklen == 3 && pre == DOT_DOT {
      out := Pop(dest, slash, stack);
      if last {
        assert dest[..out + 1] == dest[..out] + [dest[out]];
        out := out + 1;
      }
    } else if toklen == 1 || pre == SLASH_DOT {
      out := slash;
      if last {
        assert dest[..out + 1] == dest[..out] + [dest[out]];
        out := out + 1;
      }
    } else {
      assert !Special(cur);
      assert (stack + [cur])[..|stack|] == stack;
    }
  }

  /** The text of `src` from `walk` on, up to the terminator, has not been overwritten. */
  ghost predicate Unread(src: array<byte>, s: seq<byte>, walk: nat)
    reads src
  {
    |s| < src.Length && forall j :: walk <= j <= |s| ==> src[j] == if j < |s| then s[j] else NUL
  }

  lemma {:induction false} SkipIs(s: seq<byte>, n: nat)
    requires n <= |s| && (forall j :: 0 <= j < n ==> s[j] == SPACE) && (n < |s| ==> s[n] != SPACE)
    ensures SkipSpaces(s) == s[n..]
  {
    if n > 0 {
      SkipIs(s[1..], n - 1);
      assert s[1..][n - 1..] == s[n..];
    }
  }

  /** Everything the loop knows between two characters: `k` of `body` read, `text` written. */
  ghost predicate Progress(body: seq<byte>, k: nat, text: seq<byte>, slash: nat, pre: nat,
                           before: seq<byte>, stack: seq<seq<byte>>, cur: seq<byte>)
  {
    Writing(text, stack, cur, slash) && Reading(body, k, stack, cur) && Remembers(pre, before + [SLASH] + cur)
  }

  lemma ProgressSlash(body: seq<byte>, k: nat, text: seq<byte>, slash: nat, pre: nat,
                      before: seq<byte>, stack: seq<seq<byte>>, cur: seq<byte>)
    requires k < |body| && body[k] == SLASH && Progress(body, k, text, slash, pre, before, stack, cur)
    ensures var kept := Join(Step(stack, cur));
            Progress(body, k + 1, kept + [SLASH], |kept|, Shift(pre, SLASH),
                     before + [SLASH] + cur, Step(stack, cur), [])
  {
    ReadOne(body, k, stack, cur);
    ShiftRemembers(pre, before + [SLASH] + cur, SLASH);
    var kept := Join(Step(stack, cur));
    assert kept + [SLASH] == kept + [SLASH] + [];
    assert before + [SLASH] + cur + [SLASH] == before + [SLASH] + cur + [SLASH] + [];
  }

  lemma ProgressChar(body: seq<byte>, k: nat, text: seq<byte>, slash: nat, pre: nat,
                     before: seq<byte>, stack: seq<seq<byte>>, cur: seq<byte>)
    requires k < |body| && body[k] != SLASH && Progress(body, k, text, slash, pre, before, stack, cur)
    ensures Progress(body, k + 1, text + [body[k]], slash, Shift(pre, body[k]), before, stack, cur + [body[k]])
  {
    ReadOne(body, k, stack, cur);
    ShiftRemembers(pre, before + [SLASH] + cur, body[k]);
    assert text + [body[k]] == Join(stack) + [SLASH] + (cur + [body[k]]);
    assert before + [SLASH] + cur + [body[k]] == before + [SLASH] + (cur + [body[k]]);
  }

  /** One character of the body: read ahead, then write behind. */
  method CopyOne(dest: array<byte>, src: array<byte>, ghost s: seq<byte>, walk: nat, out: nat, pre1: byte)
    returns (c: byte)
    requires out <= walk <= |s| && out < dest.Length && Unread(src, s, walk)
    modifies dest
    ensures c == (if walk < |s| then s[walk] else NUL)
    ensures Unread(src, s, walk + 1) && dest[..out + 1] == old(dest[..out]) + [pre1]
  {
    c := src[walk];
    dest[out] := pre1;
  }

  /** The loop's ghost state: characters read, the text before the current segment, the
      resolved segments and the current one. */
  datatype Seen = Seen(k: nat, before: seq<byte>, stack: seq<seq<byte>>, cur: seq<byte>)

  ghost function Next(g: Seen, c: byte): Seen {
    if c == SLASH then Seen(g.k + 1, g.before + [SLASH] + g.cur, Step(g.stack, g.cur), [])
    else Seen(g.k + 1, g.before, g.stack, g.cur + [c])
  }

  ghost predicate At(body: seq<byte>, g: Seen, text: seq<byte>, slash: nat, pre: nat) {
    Progress(body, g.k, text, slash, pre, g.before, g.stack, g.cur)
  }

  /** One turn of the loop: a slash ends the segment under way, then `c` is copied. */
  method Turn(dest: array<byte>, src: array<byte>, ghost s: seq<byte>, walk: nat, out0: nat, slash0: nat, pre0: nat,
              c0: byte,
              ghost body: seq<byte>, ghost g: Seen)
    returns (out: nat, slash: nat, pre: nat, c: byte)
    requires out0 <= walk <= |s| && out0 < dest.Length && Unread(src, s, walk)
    requires g.k < |body| && body[g.k] == c0 && At(body, g, dest[..out0], slash0, pre0)
    modifies dest
    ensures out <= out0 + 1 && out <= dest.Length && Unread(src, s, walk + 1)
    ensures c == (if walk < |s| then s[walk] else NUL)
    ensures At(body, Next(g, c0), dest[..out], slash, pre)
  {
    out, slash := out0, slash0;
    if c0 == SLASH {
      ProgressSlash(body, g.k, dest[..out], slash, pre0, g.before, g.stack, g.cur);
      out := EndSegment(dest, out, slash, pre0, false, g.before, g.stack, g.cur);
      slash := out;
    } else {
      ProgressChar(body, g.k, dest[..out], slash, pre0, g.before, g.stack, g.cur);
    }
    pre := Shift(pre0, c0);
    c := CopyOne(dest, src, s, walk, out, c0);
    out := out + 1;
  }

  /** The whole loop, entered with `out` characters written and the next one in `c0`.
      Character m of the body is character m + shift of the source. */
  method Loop(dest: array<byte>, src: array<byte>, ghost s: seq<byte>, ghost body: seq<byte>, ghost g0: Seen,
              ghost shift: nat,
              out0: nat, walk0: nat, pre0: nat, c0: byte)
    returns (out: nat)
    requires NUL !in body && |body| + shift == |s| && forall m :: g0.k <= m < |body| ==> s[m + shift] == body[m]
    requires g0.k <= |body| && walk0 == g0.k + 1 + shift && c0 == (if g0.k < |body| then body[g0.k] else NUL)
    requires Unread(src, s, walk0) && dest.Length >= |s| + 2 && out0 <= g0.k + 1
    requires At(body, g0, dest[..out0], 0, pre0)
    modifies dest
    ensures out < dest.Length && dest[..out] == Rebuild(Split(body))
  {
    var walk, pre, c, slash := walk0, pre0, c0, 0;
    out := out0;
    ghost var g := g0;
    while c != NUL
      invariant g0.k <= g.k <= |body| && walk == g.k + 1 + shift && out <= g.k + 1
      invariant c == (if g.k < |body| then body[g.k] else NUL)
      invariant Unread(src, s, walk)
      invariant At(body, g, dest[..out], slash, pre)
      decreases |body| - g.k
    {
      ghost var g' := Next(g, c);
      out, slash, pre, c := Turn(dest, src, s, walk, out, slash, pre, c, body, g);
      walk := walk + 1;
      g := g';
    }
    out := EndSegment(dest, out, slash, pre, true, g.before, g.stack, g.cur);
    ProgressDone(body, g.stack, g.cur);
  }

  lemma {:induction false} ProgressDone(body: seq<byte>, stack: seq<seq<byte>>, cur: seq<byte>)
    requires Reading(body, |body|, stack, cur)
    ensures Rebuild(Split(body)) == Join(Step(stack, cur)) + if Special(cur) then [SLASH] else []
  {
    assert body[..|body|] == body;
    ParsedIsSplit(body);
  }

  /** `pre` after the first character; a missing leading slash is supplied. */
  function FirstPre(pre1: byte): nat {
    if pre1 == SLASH then SLASH else if pre1 < 128 then SLASH as int * 256 + pre1 else 0xFF00 + pre1 as int
  }

  lemma ProgressStart(path: seq<byte>)
    requires path != [] && NUL !in path
    ensures var k := if path[0] == SLASH then 0 else 1;
            At(Body(path), Seen(k, [], [], Body(path)[..k]), [SLASH] + Body(path)[..k], 0, FirstPre(path[0]))
  {
    var k := if path[0] == SLASH then 0 else 1;
    var body := Body(path);
    assert [] + [SLASH] + body[..k] == [SLASH] + body[..k];
    if k == 1 {
      assert body[..1] == [path[0]];
      assert body[..1][..0] == [];
      assert [] + [path[0]] == [path[0]];
    }
  }

  method SkipLeading(src: array<byte>, ghost s: seq<byte>) returns (walk: nat)
    requires Unread(src, s, 0)
    ensures walk <= |s| && SkipSpaces(s) == s[walk..]
  {
    walk := 0;
    while src[walk] == SPACE
      invariant walk <= |s| && forall j :: 0 <= j < walk ==> s[j] == SPACE
      decreases |s| - walk
    {
      walk := walk + 1;
    }
    SkipIs(s, walk);
  }

  /** The part of buffer_path_simplify after the buffers are prepared.  `used` is the value
      stored in dest->used. */
  method SimplifyBytes(dest: array<byte>, src: array<byte>, ghost s: seq<byte>) returns (used: nat)
    requires Unread(src, s, 0) && NUL !in s && dest.Length >= |s| + 2
    modifies dest
    ensures SkipSpaces(s) != [] ==>
      1 <= used <= dest.Length && dest[..used - 1] == Simplified(SkipSpaces(s)) && dest[used - 1] == NUL
    ensures SkipSpaces(s) == [] ==> used == 3 && dest[0] == SLASH && dest[1] == NUL
  {
    var walk := SkipLeading(src, s);
    ghost var path := s[walk..];
    var pre1 := src[walk];
    if pre1 == NUL {
      dest[0], dest[1] := SLASH, NUL;
      return 3;
    }
    ProgressStart(path);
    var c := src[walk + 1];
    var out := 0;
    if pre1 != SLASH {
      dest[out] := SLASH;
      out := out + 1;
    }
    dest[out] := pre1;
    out := out + 1;
    ghost var body, k := Body(path), if pre1 == SLASH then 0 else 1;
    assert dest[..out] == [SLASH] + body[..k];
    out := Loop(dest, src, s, body, Seen(k, [], [], body[..k]), |s| - |body|, out, walk + 2, FirstPre(pre1), c);
    dest[out] := NUL;
    used := out + 1;
  }

  /** The text left in the destination. */
  function Result(s: seq<byte>): seq<byte> {
    if SkipSpaces(s) == [] then [SLASH] else Simplified(SkipSpaces(s))
  }

  /** Makes room in the destination without disturbing the source. */
  method Prepare(dest: Buffer, src: Buffer, ghost s: seq<byte>)
    requires src.Holds(s) && (dest != src ==> dest.ptr != src.ptr)
    modifies dest
    ensures Unread(src.ptr, s, 0) && dest.ptr.Length >= |s| + 2
    ensures dest.ptr == old(dest.ptr) || fresh(dest.ptr)
    ensures dest != src ==> dest.ptr != src.ptr && src.Holds(s)
  {
    if dest == src {
      assert dest.ptr[..|s| + 1] == s + [NUL];
      dest.PrepareAppend(1);
      assert forall j :: 0 <= j <= |s| ==> dest.ptr[j] == dest.ptr[..|s| + 1][j];
    } else {
      assert forall j :: 0 <= j < |s| ==> src.ptr[j] == src.ptr[..|s|][j];
      dest.PrepareCopy(src.used + 1);
    }
  }

  /** buffer_path_simplify, for two buffers or one.  The text is always right; the length
      stored with it is right if and only if the path is not empty, because the early exit
      for an empty path counts the terminator twice. */
  method Simplify(dest: Buffer, src: Buffer, ghost s: seq<byte>)
    requires src.Holds(s) && (dest != src ==> dest.ptr != src.ptr)
    modifies dest, dest.ptr
    ensures |Result(s)| < dest.ptr.Length && dest.ptr[..|Result(s)|] == Result(s) && dest.ptr[|Result(s)|] == NUL
    ensures dest.Holds(Result(s)) <==> SkipSpaces(s) != []
    ensures dest != src ==> src.Holds(s)
  {
    assert NUL !in Result(s) by {
      SkipSpacesSuffix(s, NUL);
      if SkipSpaces(s) != [] { SimplifiedWithout(SkipSpaces(s), NUL); }
    }
    Prepare(dest, src, s);
    var used := SimplifyBytes(dest.ptr, src.ptr, s);
    dest.used := used;
  }
}
