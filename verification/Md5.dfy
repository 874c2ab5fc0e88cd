/**
 * Streaming MD5 (md5.c) against the message digest of sections 3.1 to 3.4 of RFC 1321.  The
 * block transform of section 3.4 is a parameter.
 */
module Md5 {
  import opened Bytes
  import opened LittleEndian

  const BLOCK: nat := 64

  datatype State = State(a: Word, b: Word, c: Word, d: Word)

  const PADDING: seq<byte> := [0x80] + Zeros(63)

  const INIT := State(0x67452301, 0xefcdab89, 0x98badcfe, 0x10325476)

  type Transform = (State, seq<byte>) -> State

  function Words(s: State): seq<Word> { [s.a, s.b, s.c, s.d] }

  // ----- the digest of a whole message -----

  /** The state after the first k blocks of a message. */
  function Blocks(f: Transform, m: seq<byte>, k: nat): State
    requires BLOCK * k <= |m|
  {
    if k == 0 then INIT else f(Blocks(f, m, k - 1), m[BLOCK * (k - 1)..BLOCK * k])
  }

  /** It depends on nothing behind them. */
  lemma {:induction false} BlocksOfPrefix(f: Transform, m: seq<byte>, rest: seq<byte>, k: nat)
    requires BLOCK * k <= |m|
    ensures Blocks(f, m + rest, k) == Blocks(f, m, k)
  {
    if k > 0 {
      BlocksOfPrefix(f, m, rest, k - 1);
      assert (m + rest)[BLOCK * (k - 1)..BLOCK * k] == m[BLOCK * (k - 1)..BLOCK * k];
    }
  }

  function Zeros(n: nat): (s: seq<byte>)
    ensures |s| == n
  {
    seq(n, _ => 0)
  }

  /** Section 3.1: one bit, then zeros up to 56 modulo 64. */
  function Padding(n: nat): (s: seq<byte>)
    ensures 1 <= |s| <= BLOCK
  {
    [0x80] + Zeros((55 - n) % BLOCK)
  }

  /** Section 3.2: the number of bits modulo 2^64 as two words, the low-order word first. */
  function BitCount(n: nat): (s: seq<byte>)
    ensures |s| == 8
  {
    var c := 8 * n % 0x1_0000_0000_0000_0000;
    WordBytes(c % 0x1_0000_0000) + WordBytes(c / 0x1_0000_0000)
  }

  function Padded(m: seq<byte>): seq<byte> { m + Padding(|m|) + BitCount(|m|) }

  function Digest(f: Transform, m: seq<byte>): seq<byte> {
    Encoded(Words(Blocks(f, Padded(m), |Padded(m)| / BLOCK)))
  }

  /** Section 3.3: the bytes of the initial words, low-order bytes first. */
  lemma InitialBytes()
    ensures Encoded(Words(INIT)) ==
      [0x01, 0x23, 0x45, 0x67, 0x89, 0xab, 0xcd, 0xef, 0xfe, 0xdc, 0xba, 0x98, 0x76, 0x54, 0x32, 0x10]
  {
    EncodedFour(INIT.a, INIT.b, INIT.c, INIT.d);
    BytesOfWord(0x01, 0x23, 0x45, 0x67);
    BytesOfWord(0x89, 0xab, 0xcd, 0xef);
    BytesOfWord(0xfe, 0xdc, 0xba, 0x98);
    BytesOfWord(0x76, 0x54, 0x32, 0x10);
  }

  lemma EncodedFour(a: Word, b: Word, c: Word, d: Word)
    ensures Encoded([a, b, c, d]) == WordBytes(a) + WordBytes(b) + WordBytes(c) + WordBytes(d)
  {
    EncodedWith([a, b, c], d);
    EncodedWith([a, b], c);
    EncodedWith([a], b);
    EncodedWith([], a);
    assert [a, b, c] + [d] == [a, b, c, d] && [a, b] + [c] == [a, b, c] && [a] + [b] == [a, b] && [] + [a] == [a];
    assert Encoded([]) + WordBytes(a) == WordBytes(a);
  }

  /** The number that bytes stand for, the first one the least significant. */
  function Number(s: seq<byte>): nat { if s == [] then 0 else s[0] + 256 * Number(s[1..]) }

  /** Sections 3.1 and 3.2: a padded message is the message, a byte 0x80, as few zeros as fill up
      a block, and eight bytes with the number of bits. */
  lemma PaddedIs(m: seq<byte>)
    ensures var p, n := Padded(m), |m|;
            && |p| % 64 == 0 && n + 9 <= |p| < n + 73
            && p[..n] == m && p[n] == 0x80 && (forall i :: n < i < |p| - 8 ==> p[i] == 0)
            && Number(p[|p| - 8..]) == 8 * n % 0x1_0000_0000_0000_0000
  {
    var n := |m|;
    var c := 8 * n % 0x1_0000_0000_0000_0000;
    var p := Padded(m);
    var z := (55 - n) % 64;
    PadRest(n, z);
    assert p[|p| - 8..] == BitCount(n);
    NumberOfWords(c);
  }

  lemma PadRest(n: nat, z: nat)
    requires z == (55 - n) % 64
    ensures z < 64 && (n + 1 + z + 8) % 64 == 0
  {
    var q := (55 - n) / 64;
    assert 55 - n == 64 * q + z;
    QuotientIs(n + 9 + z, 64, 1 - q, 0);
  }

  lemma NumberOfWords(c: nat)
    requires c < 0x1_0000_0000_0000_0000
    ensures Number(WordBytes(c % 0x1_0000_0000) + WordBytes(c / 0x1_0000_0000)) == c
  {
    var low: Word, high: Word := c % 0x1_0000_0000, c / 0x1_0000_0000;
    NumberOfWord(low, WordBytes(high));
    NumberOfWord(high, []);
    assert WordBytes(high) + [] == WordBytes(high);
  }

  lemma NumberOfWord(w: Word, rest: seq<byte>)
    ensures Number(WordBytes(w) + rest) == w + 0x1_0000_0000 * Number(rest)
  {
    var s := WordBytes(w);
    Digits(w);
    NumberOfFour(s[0], s[1], s[2], s[3], rest);
    assert WordBytes(w) + rest == [s[0], s[1], s[2], s[3]] + rest;
  }

  lemma NumberStep(b: byte, rest: seq<byte>)
    ensures Number([b] + rest) == b + 256 * Number(rest)
  {
    assert ([b] + rest)[1..] == rest;
  }

  lemma NumberOfFour(a: byte, b: byte, c: byte, d: byte, rest: seq<byte>)
    ensures Number([a, b, c, d] + rest) == a + 256 * (b + 256 * (c + 256 * (d + 256 * Number(rest))))
  {
    NumberStep(a, [b, c, d] + rest);
    NumberStep(b, [c, d] + rest);
    NumberStep(c, [d] + rest);
    NumberStep(d, rest);
    assert [a] + ([b, c, d] + rest) == [a, b, c, d] + rest && [b] + ([c, d] + rest) == [b, c, d] + rest;
    assert [c] + ([d] + rest) == [c, d] + rest;
  }

  /** The padding fills up a block but for eight bytes. */
  lemma PadLength(n: nat, k: nat)
    requires BLOCK * k <= n < BLOCK * k + BLOCK
    ensures var ndx := n - BLOCK * k;
            Padding(n) == PADDING[..if ndx < 56 then 56 - ndx else 120 - ndx]
  {
    var ndx := n - BLOCK * k;
    var q: int := k;
    QuotientIs(55 - n, BLOCK, if ndx < 56 then -q else -q - 1, if ndx < 56 then 55 - ndx else 119 - ndx);
  }

  // ----- the bit counter -----

  /** The two words count the bits of n bytes, after `wraps` times 2^64. */
  predicate Counts(low: Word, high: Word, n: nat, wraps: nat) {
    8 * n == 0x1_0000_0000_0000_0000 * wraps + 0x1_0000_0000 * high + low
  }

  /** The place in the buffer is read off the low word of the counter. */
  lemma PlaceOf(low: Word, high: Word, n: nat, wraps: nat, k: nat)
    requires Counts(low, high, n, wraps) && BLOCK * k <= n < BLOCK * k + BLOCK
    ensures low / 8 % BLOCK == n - BLOCK * k
  {
    var c := 0x80_0000_0000_0000 * wraps + 0x80_0000 * high;
    assert low == 8 * (n - 64 * c);
    QuotientIs(n - 64 * c, 64, k - c, n - 64 * k);
  }

  function LowAfter(low: Word, len: Word): Word { (low + 8 * len % 0x1_0000_0000) % 0x1_0000_0000 }

  function HighAfter(low: Word, high: Word, len: Word): Word {
    var carried: Word :=
      if LowAfter(low, len) < 8 * len % 0x1_0000_0000 then (high + 1) % 0x1_0000_0000 else high;
    (carried + len / 0x2000_0000) % 0x1_0000_0000
  }

  lemma WrapAdd(x: Word, y: Word)
    ensures (x + y) % 0x1_0000_0000 == if x + y < 0x1_0000_0000 then x + y else x + y - 0x1_0000_0000
    ensures (x + y) % 0x1_0000_0000 < y <==> x + y >= 0x1_0000_0000
  {
  }

  /** Eight times a length, as two words. */
  lemma BitLength(len: Word)
    ensures 8 * len == 8 * len % 0x1_0000_0000 + 0x1_0000_0000 * (len / 0x2000_0000)
  {
    var q, r := len / 0x2000_0000, len % 0x2000_0000;
    QuotientIs(8 * len, 0x1_0000_0000, q, 8 * r);
  }

  /** Adding two words to two words, as the code does it. */
  lemma AddWords(low: Word, high: Word, x: Word, y: Word)
    ensures var carry := if (low + x) % 0x1_0000_0000 < x then 1 else 0;
            (low + 0x1_0000_0000 * high + x + 0x1_0000_0000 * y) % 0x1_0000_0000_0000_0000 ==
            (low + x) % 0x1_0000_0000 + 0x1_0000_0000 * ((high + carry + y) % 0x1_0000_0000)
  {
    WrapAdd(low, x);
    var carry := if (low + x) % 0x1_0000_0000 < x then 1 else 0;
    var h := high + carry + y;
    assert h == 0x1_0000_0000 * (h / 0x1_0000_0000) + h % 0x1_0000_0000;
    QuotientIs(low + 0x1_0000_0000 * high + x + 0x1_0000_0000 * y, 0x1_0000_0000_0000_0000, h / 0x1_0000_0000,
               (low + x) % 0x1_0000_0000 + 0x1_0000_0000 * (h % 0x1_0000_0000));
  }

  lemma CarryOnce(high: Word, y: nat)
    ensures ((high + 1) % 0x1_0000_0000 + y) % 0x1_0000_0000 == (high + 1 + y) % 0x1_0000_0000
  {
    if high + 1 == 0x1_0000_0000 {
      QuotientIs(high + 1 + y, 0x1_0000_0000, 1 + y / 0x1_0000_0000, y % 0x1_0000_0000);
    }
  }

  /** The carry between the words is right. */
  lemma CountsAfter(low: Word, high: Word, n: nat, len: Word, wraps: nat) returns (wraps': nat)
    requires Counts(low, high, n, wraps)
    ensures Counts(LowAfter(low, len), HighAfter(low, high, len), n + len, wraps')
  {
    var x, y := 8 * len % 0x1_0000_0000, len / 0x2000_0000;
    BitLength(len);
    AddWords(low, high, x, y);
    CarryOnce(high, y);
    wraps' := wraps + (low + 0x1_0000_0000 * high + 8 * len) / 0x1_0000_0000_0000_0000;
  }

  // ----- the block loop of MD5_Update -----

  /** The guard of the loop, which adds in 32 bits. */
  predicate Continues(i: Word, len: Word) { (i + 63) % 0x1_0000_0000 < len }

  /** The value of the loop counter at turn k. */
  function CounterAt(ndx: nat, k: nat): Word
    requires ndx < BLOCK
  {
    (64 - ndx + 64 * k) % 0x1_0000_0000
  }

  lemma EndlessTurn(ndx: nat, len: Word, k: nat)
    requires ndx < BLOCK && ndx + len >= 0x1_0000_0000
    ensures Continues(CounterAt(ndx, k), len)
  {
    var turns := 0x400_0000;
    var j := (k + 1) % turns;
    var i := if j == 0 then 0x1_0000_0000 - ndx else 64 * j - ndx;
    assert 64 - ndx + 64 * k == 0x1_0000_0000 * ((k + 1) / turns) + 64 * j - ndx;
    if j == 0 {
      QuotientIs(64 - ndx + 64 * k, 0x1_0000_0000, (k + 1) / turns - 1, i);
    } else {
      QuotientIs(64 - ndx + 64 * k, 0x1_0000_0000, (k + 1) / turns, i);
    }
    WrapAdd(i, 63);
  }

  lemma EndingTurn(ndx: nat, len: Word, k: nat)
    requires ndx < BLOCK && 64 - ndx <= len && ndx + len < 0x1_0000_0000 && k == (ndx + len) / 64 - 1
    ensures !Continues(CounterAt(ndx, k), len)
  {
    var i := 64 - ndx + 64 * k;
    assert i <= len < i + 64;
    WrapAdd(i, 63);
  }

  /** The loop ends exactly when the place in the buffer and the length fit in 32 bits. */
  lemma LoopEndsIff(ndx: nat, len: Word)
    requires ndx < BLOCK && 64 - ndx <= len
    ensures (exists k: nat :: !Continues(CounterAt(ndx, k), len)) <==> ndx + len < 0x1_0000_0000
  {
    if ndx + len < 0x1_0000_0000 {
      EndingTurn(ndx, len, (ndx + len) / 64 - 1);
    } else {
      forall k: nat ensures Continues(CounterAt(ndx, k), len) { EndlessTurn(ndx, len, k); }
    }
  }

  // ----- the context -----

  class Context {
    const transform: Transform
    var state: State
    var low: Word
    var high: Word
    const buffer: array<byte>

    /** `blocks` full blocks went through the transform. */
    ghost var blocks: nat
    ghost var wraps: nat

    /** The context has taken in the message m. */
    ghost predicate Holds(m: seq<byte>)
      reads this, buffer
    {
      && buffer.Length == BLOCK && Counts(low, high, |m|, wraps)
      && BLOCK * blocks <= |m| < BLOCK * blocks + BLOCK && state == Blocks(transform, m, blocks)
      && buffer[..|m| - BLOCK * blocks] == m[BLOCK * blocks..]
    }

    constructor (f: Transform)
      ensures Holds([]) && transform == f && fresh(buffer)
    {
      transform := f;
      buffer := new byte[BLOCK];
      low, high := 0, 0;
      state := INIT;
      blocks, wraps := 0, 0;
      new;
      assert Blocks(f, [], 0) == INIT;
    }

    method AddCount(len: Word)
      modifies `low, `high
      ensures low == LowAfter(old(low), len) && high == HighAfter(old(low), old(high), len)
    {
      var bits: Word := 8 * len % 0x1_0000_0000;
      low := (low + bits) % 0x1_0000_0000;
      if low < bits { high := (high + 1) % 0x1_0000_0000; }
      high := (high + len / 0x2000_0000) % 0x1_0000_0000;
    }

    /** MD5_Update.  The context takes in the message so far and the input, however the message
        was cut. */
    method Update(input: seq<byte>, ghost m: seq<byte>)
      requires Holds(m) && |m| - BLOCK * blocks + |input| < 0x1_0000_0000
      modifies this, buffer
      ensures Holds(m + input)
    {
      PlaceOf(low, high, |m|, wraps, blocks);
      var ndx := low / 8 % BLOCK;
      wraps := CountsAfter(low, high, |m|, |input|, wraps);
      AddCount(|input|);
      Absorb(input, m, ndx);
    }

    /** The part of MD5_Update after the counter. */
    method Absorb(input: seq<byte>, ghost m: seq<byte>, ndx: nat)
      requires buffer.Length == BLOCK && BLOCK * blocks + ndx == |m| && ndx < BLOCK && ndx + |input| < 0x1_0000_0000
      requires state == Blocks(transform, m, blocks) && buffer[..ndx] == m[BLOCK * blocks..]
      modifies `state, `blocks, buffer
      ensures BLOCK * blocks <= |m + input| < BLOCK * blocks + BLOCK && state == Blocks(transform, m + input, blocks)
      ensures buffer[..|m + input| - BLOCK * blocks] == (m + input)[BLOCK * blocks..]
    {
      BlocksOfPrefix(transform, m, input, blocks);
      if |input| >= BLOCK - ndx {
        var i := TakeBlocks(input, m, ndx);
        Copy(buffer, 0, input[i..]);
        assert (m + input)[|m| + i..] == input[i..];
      } else {
        Copy(buffer, ndx, input);
        assert (m + input)[BLOCK * blocks..] == m[BLOCK * blocks..] + input;
      }
    }

    /** The full blocks: the buffer and the first part of the input, then the input itself. */
    method TakeBlocks(input: seq<byte>, ghost m: seq<byte>, ndx: nat) returns (i: nat)
      requires buffer.Length == BLOCK && BLOCK * blocks + ndx == |m| && ndx < BLOCK
      requires BLOCK - ndx <= |input| && ndx + |input| < 0x1_0000_0000
      requires state == Blocks(transform, m + input, blocks) && buffer[..ndx] == m[BLOCK * blocks..]
      modifies `state, `blocks, buffer
      ensures i <= |input| < i + BLOCK && BLOCK * blocks == |m| + i
      ensures state == Blocks(transform, m + input, blocks)
    {
      var partLen := BLOCK - ndx;
      Copy(buffer, ndx, input[..partLen]);
      assert buffer[..] == buffer[..BLOCK] == (m + input)[BLOCK * blocks..BLOCK * (blocks + 1)];
      state := transform(state, buffer[..]);
      blocks := blocks + 1;
      i := TakeFrom(input, m, m + input, ndx, partLen);
    }

    method TakeFrom(input: seq<byte>, ghost m: seq<byte>, ghost t: seq<byte>, ghost ndx: nat, start: nat)
      returns (i: nat)
      requires t == m + input && start <= |input| && ndx < BLOCK && ndx + |input| < 0x1_0000_0000
      requires BLOCK * blocks == |m| + start && start == BLOCK - ndx && state == Blocks(transform, t, blocks)
      modifies `state, `blocks
      ensures i <= |input| < i + BLOCK && BLOCK * blocks == |m| + i && state == Blocks(transform, t, blocks)
    {
      i := start;
      ghost var turn := 1;
      NoWrap(ndx, i, |input|, turn);
      while (i + 63) % 0x1_0000_0000 < |input|
        invariant i <= |input| && BLOCK * blocks == |m| + i && ndx + i == BLOCK * turn
        invariant (i + 63) % 0x1_0000_0000 == i + 63 && state == Blocks(transform, t, blocks)
        decreases |input| - i
      {
        BlockOfInput(m, input, t, i, blocks);
        state := transform(state, input[i..i + BLOCK]);
        blocks, turn := blocks + 1, turn + 1;
        NoWrap(ndx, i + BLOCK, |input|, turn);
        i := (i + BLOCK) % 0x1_0000_0000;
      }
    }

    /** Up to 56 modulo 64. */
    method PadUp(ghost m: seq<byte>)
      requires Holds(m)
      modifies this, buffer
      ensures Holds(m + Padding(|m|)) && BLOCK * blocks + 56 == |m + Padding(|m|)|
    {
      PlaceOf(low, high, |m|, wraps, blocks);
      var ndx := low / 8 % BLOCK;
      var padLen := if ndx < 56 then 56 - ndx else 120 - ndx;
      PadLength(|m|, blocks);
      ghost var k := if ndx < 56 then blocks else blocks + 1;
      Update(PADDING[..padLen], m);
      UniqueQuotient(BLOCK, k, 56, blocks, |m| + padLen - BLOCK * blocks);
    }

    /** The padding and the bit count. */
    method Pad(ghost m: seq<byte>)
      requires Holds(m)
      modifies this, buffer
      ensures Holds(Padded(m)) && BLOCK * blocks == |Padded(m)|
    {
      var bits := new byte[8];
      Encode(bits, [low, high], 8);
      assert bits[..] == bits[..8] && [low, high][..2] == [low, high];
      LengthBytes(low, high, |m|, wraps, bits[..]);
      PadUp(m);
      ghost var k := blocks + 1;
      Update(bits[..], m + Padding(|m|));
      UniqueQuotient(BLOCK, k, 0, blocks, |Padded(m)| - BLOCK * blocks);
    }

    /** MD5_Final: the digest of the message, whatever its length. */
    method Final(digest: array<byte>, ghost m: seq<byte>)
      requires Holds(m) && digest.Length == 16 && digest != buffer
      modifies this, buffer, digest
      ensures digest[..] == Digest(transform, m)
      ensures low == high == 0 && state == State(0, 0, 0, 0) && buffer[..] == Zeros(BLOCK)
    {
      Pad(m);
      QuotientIs(|Padded(m)|, BLOCK, blocks, 0);
      WriteState(digest);
      Zeroize();
    }

    method WriteState(digest: array<byte>)
      requires digest.Length == 16
      modifies digest
      ensures digest[..] == Encoded(Words(state))
    {
      var words := Words(state);
      Encode(digest, words, 16);
      assert digest[..] == digest[..16] && words[..4] == words;
    }

    method Zeroize()
      requires buffer.Length == BLOCK
      modifies this, buffer
      ensures low == high == 0 && state == State(0, 0, 0, 0) && buffer[..] == Zeros(BLOCK)
    {
      low, high, state := 0, 0, State(0, 0, 0, 0);
      Copy(buffer, 0, Zeros(BLOCK));
      assert buffer[..] == buffer[..BLOCK];
    }
  }

  lemma BlockOfInput(m: seq<byte>, input: seq<byte>, t: seq<byte>, i: nat, k: nat)
    requires t == m + input && BLOCK * k == |m| + i && i + BLOCK <= |input|
    ensures t[BLOCK * k..BLOCK * (k + 1)] == input[i..i + BLOCK]
  {
    assert t[|m| + i..|m| + (i + BLOCK)] == input[i..i + BLOCK];
  }

  /** The counter of the block loop stays clear of 2^32. */
  lemma NoWrap(ndx: nat, i: nat, len: nat, turn: nat)
    requires ndx + i == BLOCK * turn && i <= len && ndx + len < 0x1_0000_0000
    ensures (i + 63) % 0x1_0000_0000 == i + 63 && i % 0x1_0000_0000 == i
  {
    assert turn < 0x400_0000;
  }

  lemma TwoWords(low: Word, high: Word)
    ensures Encoded([low, high]) == WordBytes(low) + WordBytes(high)
  {
    EncodedWith([low], high);
    EncodedWith([], low);
    assert [low] + [high] == [low, high] && [] + [low] == [low];
  }

  lemma LengthBytes(low: Word, high: Word, n: nat, wraps: nat, bits: seq<byte>)
    requires Counts(low, high, n, wraps) && bits == Encoded([low, high])
    ensures bits == BitCount(n)
  {
    TwoWords(low, high);
    QuotientIs(8 * n, 0x1_0000_0000_0000_0000, wraps, 0x1_0000_0000 * high + low);
    QuotientIs(0x1_0000_0000 * high + low, 0x1_0000_0000, high, low);
  }

  /** A message that comes in parts has the digest of the whole. */
  method DigestOfParts(f: Transform, parts: seq<seq<byte>>, digest: array<byte>)
    requires digest.Length == 16 && forall i :: 0 <= i < |parts| ==> |parts[i]| <= 0x1_0000_0000 - BLOCK
    modifies digest
    ensures digest[..] == Digest(f, Flatten(parts))
  {
    var c := new Context(f);
    ghost var m: seq<byte> := [];
    for i := 0 to |parts|
      invariant m == Flatten(parts[..i]) && c.Holds(m)
      invariant c.transform == f && fresh(c) && fresh(c.buffer)
    {
      FlattenLast(parts, i);
      c.Update(parts[i], m);
      m := m + parts[i];
    }
    assert parts[..|parts|] == parts;
    c.Final(digest, m);
  }
}
