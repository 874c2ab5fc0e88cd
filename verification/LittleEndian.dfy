/**
 * Words and their bytes, least significant byte first: Encode and Decode of md5.c.
 */
module LittleEndian {
  import opened Bytes

  type Word = x: int | 0 <= x < 0x1_0000_0000

  /** The four bytes that Encode writes for a word. */
  function WordBytes(w: Word): (s: seq<byte>)
    ensures |s| == 4
  {
    [w % 256, w / 256 % 256, w / 65536 % 256, w / 16777216 % 256]
  }

  /** The word that Decode reads from four bytes; the shifted bytes do not overlap. */
  function WordOf(a: byte, b: byte, c: byte, d: byte): Word {
    (a as int) + 256 * (b as int) + 65536 * (c as int) + 16777216 * (d as int)
  }

  lemma Apart(d: nat, a: int, b: int)
    requires a < b
    ensures d * a + d <= d * b
  {
    assert d * b == d * a + d + d * (b - a - 1);
  }

  lemma UniqueQuotient(d: nat, q: int, r: int, q': int, r': int)
    requires d * q + r == d * q' + r' && 0 <= r < d && 0 <= r' < d
    ensures q == q' && r == r'
  {
    if q < q' {
      Apart(d, q, q');
    } else if q' < q {
      Apart(d, q', q);
    }
  }

  lemma QuotientIs(n: int, d: int, q: int, r: int)
    requires d > 0 && n == d * q + r && 0 <= r < d
    ensures n / d == q && n % d == r
  {
    UniqueQuotient(d, q, r, n / d, n % d);
  }

  /** Shifting by two bytes, or more, is shifting by one byte again and again. */
  lemma Shifts(n: nat)
    ensures n / 65536 == n / 256 / 256 && n / 16777216 == n / 65536 / 256 && n / 0x1_0000_0000 == n / 16777216 / 256
  {
    var a, b, c, d := n / 256, n / 256 / 256, n / 256 / 256 / 256, n / 256 / 256 / 256 / 256;
    QuotientIs(n, 65536, b, 256 * (a % 256) + n % 256);
    QuotientIs(n, 16777216, c, 65536 * (b % 256) + 256 * (a % 256) + n % 256);
    QuotientIs(n, 0x1_0000_0000, d, 16777216 * (c % 256) + 65536 * (b % 256) + 256 * (a % 256) + n % 256);
  }

  /** The remainder of a division by 2^32, digit by digit. */
  lemma Remainder(n: nat)
    ensures n % 0x1_0000_0000 ==
      n % 256 + 256 * (n / 256 % 256) + 65536 * (n / 65536 % 256) + 16777216 * (n / 16777216 % 256)
  {
    Shifts(n);
    var a, b, c, d := n / 256, n / 256 / 256, n / 256 / 256 / 256, n / 256 / 256 / 256 / 256;
    QuotientIs(n, 0x1_0000_0000, d, 16777216 * (c % 256) + 65536 * (b % 256) + 256 * (a % 256) + n % 256);
  }

  lemma Digits(w: Word)
    ensures w == w % 256 + 256 * (w / 256 % 256) + 65536 * (w / 65536 % 256) + 16777216 * (w / 16777216 % 256)
  {
    Remainder(w);
    QuotientIs(w, 0x1_0000_0000, 0, w);
  }

  lemma WordOfBytes(w: Word)
    ensures var s := WordBytes(w); WordOf(s[0], s[1], s[2], s[3]) == w
  {
    Digits(w);
  }

  lemma BytesOfWord(a: byte, b: byte, c: byte, d: byte)
    ensures WordBytes(WordOf(a, b, c, d)) == [a, b, c, d]
  {
    var w := WordOf(a, b, c, d);
    assert w / 256 == b + 256 * (c as int) + 65536 * (d as int);
    assert w / 65536 == c + 256 * (d as int);
  }

  function Encoded(words: seq<Word>): (s: seq<byte>)
    ensures |s| == 4 * |words|
  {
    if words == [] then [] else Encoded(words[..|words| - 1]) + WordBytes(words[|words| - 1])
  }

  lemma EncodedWith(words: seq<Word>, w: Word)
    ensures Encoded(words + [w]) == Encoded(words) + WordBytes(w)
  {
    assert (words + [w])[..|words|] == words;
  }

  method PutWord(output: array<byte>, j: nat, w: Word)
    requires j + 4 <= output.Length
    modifies output
    ensures output[..j + 4] == old(output[..j]) + WordBytes(w)
    ensures output[j + 4..] == old(output[j + 4..])
  {
    output[j] := w % 256;
    output[j + 1] := w / 256 % 256;
    output[j + 2] := w / 65536 % 256;
    output[j + 3] := w / 16777216 % 256;
  }

  /** Encode: len bytes of the words. */
  method Encode(output: array<byte>, input: seq<Word>, len: nat)
    requires len % 4 == 0 && len <= output.Length && len <= 4 * |input|
    modifies output
    ensures output[..len] == Encoded(input[..len / 4]) && output[len..] == old(output[len..])
  {
    var i, j := 0, 0;
    while j < len
      invariant j == 4 * i <= len && output[..j] == Encoded(input[..i]) && output[len..] == old(output[len..])
    {
      EncodedWith(input[..i], input[i]);
      assert input[..i + 1] == input[..i] + [input[i]];
      PutWord(output, j, input[i]);
      i, j := i + 1, j + 4;
    }
  }

  method GetWord(input: seq<byte>, j: nat) returns (w: Word)
    requires j + 4 <= |input|
    ensures WordBytes(w) == input[j..j + 4]
  {
    w := WordOf(input[j], input[j + 1], input[j + 2], input[j + 3]);
    BytesOfWord(input[j], input[j + 1], input[j + 2], input[j + 3]);
  }

  /** Decode: the words of len bytes. */
  method Decode(input: seq<byte>, len: nat) returns (output: seq<Word>)
    requires len % 4 == 0 && len <= |input|
    ensures Encoded(output) == input[..len]
  {
    output := [];
    var j := 0;
    while j < len
      invariant j <= len && j % 4 == 0 && Encoded(output) == input[..j]
    {
      var w := GetWord(input, j);
      EncodedWith(output, w);
      assert input[..j + 4] == input[..j] + input[j..j + 4];
      output := output + [w];
      j := j + 4;
    }
  }

  /** Encode loses nothing: Decode gives the words back. */
  lemma {:induction false} EncodedInjective(a: seq<Word>, b: seq<Word>)
    requires Encoded(a) == Encoded(b)
    ensures a == b
  {
    assert |a| == |b|;
    if a != [] {
      var n := |a| - 1;
      assert Encoded(a)[..4 * n] == Encoded(a[..n]) && Encoded(b)[..4 * n] == Encoded(b[..n]);
      assert Encoded(a)[4 * n..] == WordBytes(a[n]) && Encoded(b)[4 * n..] == WordBytes(b[n]);
      EncodedInjective(a[..n], b[..n]);
      WordOfBytes(a[n]);
      WordOfBytes(b[n]);
      assert a == a[..n] + [a[n]] && b == b[..n] + [b[n]];
    }
  }
}
