/**
 * URL encoding and decoding (buffer.c): the relative-URI maps of
 * buffer_append_string_encoded, and buffer_urldecode_internal.
 */
module Url {
  import opened Bytes

  const PERCENT: byte := 37
  const PLUS: byte := 43
  const SPACE: byte := 32
  const UNDERSCORE: byte := 95

  // ----- hexadecimal digits -----

  predicate HexDigit(c: byte) { 48 <= c <= 57 || 65 <= c <= 70 || 97 <= c <= 102 }

  function DigitValue(c: byte): (v: byte)
    requires HexDigit(c)
    ensures v < 16
  {
    if c <= 57 then c - 48 else if c <= 70 then c - 55 else c - 87
  }

  /** hex_chars */
  function HexChar(d: nat): (c: byte)
    requires d < 16
    ensures HexDigit(c) && DigitValue(c) == d
  {
    if d < 10 then 48 + d else 87 + d
  }

  /** c | 0x20 */
  function SetBit5(c: byte): byte { if c / 32 % 2 == 1 then c else c + 32 }

  /** hex2int, in 8-bit arithmetic: the value of a digit, and 255 for everything else. */
  method Hex2Int(hex: byte) returns (r: byte)
    ensures r == if HexDigit(hex) then DigitValue(hex) else 255
  {
    r := (hex - 48) % 256;
    if r > 9 {
      r := SetBit5((r + 48 - 1) % 256);
      r := (r - 97 + 11) % 256;
    }
    if r > 15 { r := 255; }
  }

  // ----- what is encoded and how -----

  /** encoded_chars_rel_uri_part, or encoded_chars_rel_uri, which lets the slash through. */
  predicate Special(c: byte, part: bool) {
    c <= 32 || 34 <= c <= 39 || c == 43 || c == 44 || (c == 47 && part) || 58 <= c <= 63 || c >= 127
  }

  function EncodeByte(c: byte, part: bool): seq<byte> {
    if Special(c, part) then [PERCENT, HexChar(c / 16), HexChar(c % 16)] else [c]
  }

  function Encode(s: seq<byte>, part: bool): seq<byte> {
    if s == [] then [] else Encode(s[..|s| - 1], part) + EncodeByte(s[|s| - 1], part)
  }

  predicate Control(c: byte) { c < 32 || c == 127 }

  function Mask(c: byte): byte { if Control(c) then UNDERSCORE else c }

  predicate Escape(s: seq<byte>) {
    |s| >= 3 && s[0] == PERCENT && HexDigit(s[1]) && HexDigit(s[2])
  }

  /** The decoder, from the front. */
  function Decode(s: seq<byte>, query: bool): seq<byte> {
    if s == [] then []
    else if query && s[0] == PLUS then [SPACE] + Decode(s[1..], query)
    else if Escape(s) then [Mask(16 * DigitValue(s[1]) + DigitValue(s[2]))] + Decode(s[3..], query)
    else [s[0]] + Decode(s[1..], query)
  }

  function Masked(s: seq<byte>): (r: seq<byte>)
    ensures |r| == |s|
  {
    seq(|s|, i requires 0 <= i < |s| => Mask(s[i]))
  }

  // ----- round trip -----

  lemma {:induction false} EncodeFirst(c: byte, s: seq<byte>, part: bool)
    ensures Encode([c] + s, part) == EncodeByte(c, part) + Encode(s, part)
  {
    if s != [] {
      var n := |s| - 1;
      assert ([c] + s)[..n + 1] == [c] + s[..n];
      EncodeFirst(c, s[..n], part);
    } else {
      assert ([c] + s)[..0] == [];
    }
  }

  lemma DecodeEncodedByte(c: byte, part: bool, rest: seq<byte>, query: bool)
    ensures Decode(EncodeByte(c, part) + rest, query) == [Mask(c)] + Decode(rest, query)
  {
    var t := EncodeByte(c, part) + rest;
    if Special(c, part) {
      assert t[3..] == rest;
    } else {
      assert t[1..] == rest;
    }
  }

  /** Decoding an encoded string gives the string back, with control characters masked. */
  lemma {:induction false} DecodeEncode(s: seq<byte>, part: bool, query: bool)
    ensures Decode(Encode(s, part), query) == Masked(s)
  {
    if s != [] {
      assert s == [s[0]] + s[1..];
      EncodeFirst(s[0], s[1..], part);
      DecodeEncode(s[1..], part, query);
      DecodeEncodedByte(s[0], part, Encode(s[1..], part), query);
    }
  }

  /** The round trip is the identity exactly on strings without control characters and DEL,
      for paths and for queries. */
  lemma RoundTripIff(s: seq<byte>, part: bool, query: bool)
    ensures Decode(Encode(s, part), query) == s <==> forall i :: 0 <= i < |s| ==> !Control(s[i])
  {
    DecodeEncode(s, part, query);
    var m := Masked(s);
    if m == s {
      forall i | 0 <= i < |s| ensures !Control(s[i]) { assert m[i] == s[i]; }
    }
  }

  // ----- nothing decodes to a terminator -----

  predicate Clean(s: seq<byte>) { forall i :: 0 <= i < |s| ==> s[i] != NUL }

  lemma {:induction false} DecodeIsClean(s: seq<byte>, query: bool)
    requires Clean(s)
    ensures Clean(Decode(s, query)) && |Decode(s, query)| <= |s|
  {
    if s != [] {
      if query && s[0] == PLUS {
        DecodeIsClean(s[1..], query);
      } else if Escape(s) {
        DecodeIsClean(s[3..], query);
      } else {
        DecodeIsClean(s[1..], query);
      }
    }
  }

  lemma {:induction false} EncodeIsClean(s: seq<byte>, part: bool)
    ensures Clean(Encode(s, part))
  {
    if s != [] { EncodeIsClean(s[..|s| - 1], part); }
  }

  // ----- the encoder -----

  lemma EncodePrefix(s: seq<byte>, n: nat, part: bool)
    requires n < |s|
    ensures Encode(s[..n + 1], part) == Encode(s[..n], part) + EncodeByte(s[n], part)
  {
    assert s[..n + 1][..n] == s[..n];
  }

  lemma {:induction false} EncodeGrows(s: seq<byte>, n: nat, part: bool)
    requires n <= |s|
    ensures |Encode(s[..n], part)| <= |Encode(s, part)|
    decreases |s| - n
  {
    if n < |s| {
      EncodePrefix(s, n, part);
      EncodeGrows(s, n + 1, part);
    } else {
      assert s[..n] == s;
    }
  }

  /** The counting pass. */
  method CountEncoded(s: seq<byte>, part: bool) returns (n: nat)
    ensures n == |Encode(s, part)|
  {
    n := 0;
    for i := 0 to |s|
      invariant n == |Encode(s[..i], part)|
    {
      EncodePrefix(s, i, part);
      n := n + if Special(s[i], part) then 3 else 1;
    }
    assert s[..|s|] == s;
  }

  method PutByte(d: array<byte>, at: nat, c: byte, part: bool) returns (next: nat)
    requires at + |EncodeByte(c, part)| <= d.Length
    modifies d
    ensures next == at + |EncodeByte(c, part)| && d[..next] == old(d[..at]) + EncodeByte(c, part)
  {
    if Special(c, part) {
      d[at] := PERCENT;
      d[at + 1] := HexChar(c / 16);
      d[at + 2] := HexChar(c % 16);
      next := at + 3;
    } else {
      d[at] := c;
      next := at + 1;
    }
  }

  /** The writing pass fills exactly what was counted. */
  method WriteEncoded(d: array<byte>, at: nat, s: seq<byte>, part: bool) returns (end: nat)
    requires at + |Encode(s, part)| <= d.Length
    modifies d
    ensures end == at + |Encode(s, part)| && d[..end] == old(d[..at]) + Encode(s, part)
  {
    end := at;
    ghost var before, done := d[..at], [];
    for i := 0 to |s|
      invariant done == Encode(s[..i], part) && end == at + |done| <= d.Length && d[..end] == before + done
    {
      EncodePrefix(s, i, part);
      EncodeGrows(s, i + 1, part);
      end := PutByte(d, end, s[i], part);
      assert (before + done) + EncodeByte(s[i], part) == before + (done + EncodeByte(s[i], part));
      done := done + EncodeByte(s[i], part);
    }
    assert s[..|s|] == s;
  }

  /** buffer_append_string_encoded: the encoded string is appended to the text of the buffer. */
  method AppendEncoded(b: Buffer, s: seq<byte>, part: bool, ghost text: seq<byte>)
    requires b.Holds(text)
    modifies b, b.ptr
    ensures b.Holds(text + Encode(s, part))
  {
    EncodeIsClean(s, part);
    if |s| == 0 {
      assert text + [] == text;
      return;
    }
    var n := CountEncoded(s, part);
    b.PrepareAppend(n);
    var end := WriteEncoded(b.ptr, b.used - 1, s, part);
    b.ptr[end] := NUL;
    b.used := b.used + n;
  }

  // ----- the decoder, in place -----

  /** The byte for the input at src, and how far to move on. */
  method DecodeAt(p: array<byte>, src: nat, query: bool, ghost s: seq<byte>) returns (c: byte, next: nat)
    requires src < |s| < p.Length && Clean(s) && p[src..|s|] == s[src..] && p[|s|] == NUL
    ensures src < next <= |s| && c != NUL && Decode(s[src..], query) == [c] + Decode(s[next..], query)
  {
    c, next := p[src], src + 1;
    assert p[src] == s[src];
    if query && p[src] == PLUS {
      c := SPACE;
    } else if p[src] == PERCENT {
      assert src + 1 < |s| ==> p[src + 1] == s[src + 1];
      var high := Hex2Int(p[src + 1]);
      if high != 255 {
        assert src + 2 < |s| ==> p[src + 2] == s[src + 2];
        var low := Hex2Int(p[src + 2]);
        if low != 255 {
          c := 16 * high + low;
          if c < 32 || c == 127 { c := UNDERSCORE; }
          next := src + 3;
        }
      }
    }
  }

  /** The text is decoded up to src and written up to dst; the rest is still there. */
  ghost predicate Halfway(p: seq<byte>, s: seq<byte>, src: nat, dst: nat, query: bool) {
    && dst <= src <= |s| < |p| && Clean(s) && p[src..|s|] == s[src..] && p[|s|] == NUL
    && Clean(p[..dst]) && p[..dst] + Decode(s[src..], query) == Decode(s, query)
  }

  lemma EndOfText(p: seq<byte>, s: seq<byte>, src: nat, dst: nat, query: bool)
    requires Halfway(p, s, src, dst, query)
    ensures p[src] == NUL <==> src == |s|
  {
    if src < |s| { assert p[src] == p[src..|s|][0] == s[src..][0] == s[src]; }
  }

  lemma WriteKeepsHalfway(p: seq<byte>, s: seq<byte>, src: nat, dst: nat, query: bool, c: byte, next: nat)
    requires Halfway(p, s, src, dst, query) && src < next <= |s| && c != NUL
    requires Decode(s[src..], query) == [c] + Decode(s[next..], query)
    ensures Halfway(p[dst := c], s, next, dst + 1, query)
  {
    var q, tail := p[dst := c], Decode(s[next..], query);
    assert q[..dst + 1] == p[..dst] + [c];
    assert Clean(q[..dst + 1]);
    assert p[..dst] + ([c] + tail) == p[..dst] + [c] + tail;
    RestStays(p, q, s, src, next);
  }

  /** Writing behind the read cursor leaves the rest. */
  lemma RestStays(p: seq<byte>, q: seq<byte>, s: seq<byte>, src: nat, next: nat)
    requires src < next <= |s| < |p| == |q| && p[src..|s|] == s[src..] && forall k :: next <= k < |p| ==> q[k] == p[k]
    ensures q[next..|s|] == s[next..]
  {
    assert q[next..|s|] == p[src..|s|][next - src..] == s[src..][next - src..];
  }

  /** The write cursor stays behind the read cursor. */
  method DecodeInPlace(p: array<byte>, query: bool, ghost s: seq<byte>) returns (dst: nat)
    requires |s| < p.Length && p[..|s|] == s && p[|s|] == NUL && Clean(s)
    modifies p
    ensures dst <= |s| && Clean(p[..dst]) && p[..dst] == Decode(s, query)
  {
    var src := 0;
    dst := 0;
    assert s[0..] == s && p[..][0..|s|] == s;
    while p[src] != NUL
      invariant Halfway(p[..], s, src, dst, query)
      decreases |s| - src
    {
      assert src < |s| && p[src..|s|] == p[..][src..|s|];
      var c, next := DecodeAt(p, src, query, s);
      WriteKeepsHalfway(p[..], s, src, dst, query, c, next);
      p[dst] := c;
      dst, src := dst + 1, next;
    }
    EndOfText(p[..], s, src, dst, query);
    assert s[src..] == [] && p[..][..dst] == p[..dst];
  }

  /** buffer_urldecode_internal: the buffer then holds the decoded text. */
  method UrlDecode(url: Buffer, query: bool, ghost s: seq<byte>)
    requires |s| < url.ptr.Length && url.ptr[..|s|] == s && url.ptr[|s|] == NUL && Clean(s)
    modifies url`used, url.ptr
    ensures url.Holds(Decode(s, query))
  {
    var dst := DecodeInPlace(url.ptr, query, s);
    url.ptr[dst] := NUL;
    url.used := dst + 1;
  }
}
