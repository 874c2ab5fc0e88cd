/**
 * What URL encoding and decoding (buffer.c) promise, said in characters and without the tables
 * of the coder: which characters go into a URI as they are, how the others are spelled, and
 * what a decoder reads.
 */
module UrlLaws {
  import opened Bytes
  import opened Url

  const MARKS: string := "!()*-.@[\\]^_`{|}~"
  const DIGITS: string := "0123456789abcdef"

  /** Letters, digits and marks stand for themselves, and so does the slash in a whole path. */
  predicate Safe(c: byte, part: bool) {
    var x := c as char;
    || 'a' <= x <= 'z' || 'A' <= x <= 'Z' || '0' <= x <= '9'
    || x in MARKS || (x == '/' && !part)
  }

  lemma MarksAre(x: char)
    ensures x in MARKS <==>
      x == '!' || '(' <= x <= '*' || x == '-' || x == '.' || x == '@' || '[' <= x <= '`' || '{' <= x <= '~'
  {
    assert MARKS[0] == '!' && MARKS[1] == '(' && MARKS[2] == ')' && MARKS[3] == '*' && MARKS[4] == '-';
    assert MARKS[5] == '.' && MARKS[6] == '@' && MARKS[7] == '[' && MARKS[8] == '\\' && MARKS[9] == ']';
    assert MARKS[10] == '^' && MARKS[11] == '_' && MARKS[12] == '`' && MARKS[13] == '{';
    assert MARKS[14] == '|' && MARKS[15] == '}' && MARKS[16] == '~';
  }

  lemma SpecialIffUnsafe(c: byte, part: bool)
    ensures Special(c, part) <==> !Safe(c, part)
  {
    MarksAre(c as char);
  }

  // ----- spelling -----

  /** `out` spells `s`: safe bytes as they are, each other one as a percent sign and its two
      lower-case hexadecimal digits. */
  predicate Spells(out: seq<byte>, s: seq<byte>, part: bool) {
    if s == [] then out == []
    else if Safe(s[0], part) then out != [] && out[0] == s[0] && Spells(out[1..], s[1..], part)
    else
      && |out| >= 3 && out[0] as char == '%'
      && out[1] as char == DIGITS[s[0] / 16] && out[2] as char == DIGITS[s[0] % 16]
      && Spells(out[3..], s[1..], part)
  }

  lemma HexCharIs(d: nat)
    requires d < 16
    ensures HexChar(d) as char == DIGITS[d]
  {
  }

  /** The encoding of a string is the one text that spells it. */
  lemma {:induction false} EncodeSpells(out: seq<byte>, s: seq<byte>, part: bool)
    ensures Encode(s, part) == out <==> Spells(out, s, part)
  {
    if s != [] {
      var c, rest := s[0], Encode(s[1..], part);
      assert s == [c] + s[1..];
      EncodeFirst(c, s[1..], part);
      SpecialIffUnsafe(c, part);
      var k := if Safe(c, part) then 1 else 3;
      if |out| >= k {
        EncodeSpells(out[k..], s[1..], part);
        Parted(out, EncodeByte(c, part), rest);
      }
      if !Safe(c, part) {
        HexCharIs(c / 16);
        HexCharIs(c % 16);
      }
    }
  }

  lemma Parted(out: seq<byte>, a: seq<byte>, b: seq<byte>)
    requires |a| <= |out|
    ensures a + b == out <==> out[..|a|] == a && out[|a|..] == b
  {
    assert out == out[..|a|] + out[|a|..];
  }

  /** A percent sign with two hexadecimal digits behind it. */
  predicate EscapeAt(out: seq<byte>, i: nat) {
    i + 2 < |out| && out[i] as char == '%' && out[i + 1] as char in DIGITS && out[i + 2] as char in DIGITS
  }

  predicate SafeAt(out: seq<byte>, i: nat, part: bool) {
    i < |out| && (Safe(out[i], part) || EscapeAt(out, i))
  }

  ghost predicate SafeText(out: seq<byte>, part: bool) {
    forall i :: 0 <= i < |out| ==> SafeAt(out, i, part)
  }

  lemma SafeBehind(out: seq<byte>, k: nat, i: nat, part: bool)
    requires k <= i < |out| && SafeAt(out[k..], i - k, part)
    ensures SafeAt(out, i, part)
  {
    assert out[k..][i - k] == out[i];
    if EscapeAt(out[k..], i - k) {
      assert out[k..][i - k + 1] == out[i + 1] && out[k..][i - k + 2] == out[i + 2];
    }
  }

  lemma SafeFront(out: seq<byte>, s: seq<byte>, i: nat, part: bool)
    requires s != [] && Spells(out, s, part) && i < (if Safe(s[0], part) then 1 else 3)
    ensures SafeAt(out, i, part)
  {
    DigitsAreSafe(part);
  }

  /** Whatever is encoded, nothing but safe bytes and escapes goes into the URI. */
  lemma {:induction false} EncodedIsSafe(out: seq<byte>, s: seq<byte>, part: bool)
    requires Spells(out, s, part)
    ensures SafeText(out, part)
  {
    if s != [] {
      var k := if Safe(s[0], part) then 1 else 3;
      EncodedIsSafe(out[k..], s[1..], part);
      forall i | 0 <= i < |out| ensures SafeAt(out, i, part) {
        if i < k { SafeFront(out, s, i, part); } else { SafeBehind(out, k, i, part); }
      }
    }
  }

  lemma DigitsAreSafe(part: bool)
    ensures forall d :: 0 <= d < 16 ==> DIGITS[d] in DIGITS
    ensures forall c: byte :: c as char in DIGITS ==> Safe(c, part)
  {
  }

  lemma EncodingIsSafe(s: seq<byte>, part: bool)
    ensures SafeText(Encode(s, part), part)
  {
    EncodeSpells(Encode(s, part), s, part);
    EncodedIsSafe(Encode(s, part), s, part);
  }

  ghost predicate AllSafe(s: seq<byte>, part: bool) {
    forall i :: 0 <= i < |s| ==> Safe(s[i], part)
  }

  lemma {:induction false} UnsafeIsNone(s: seq<byte>, part: bool)
    ensures Unsafe(s, part) == 0 <==> AllSafe(s, part)
  {
    if s != [] {
      UnsafeIsNone(s[1..], part);
      assert forall i :: 0 < i < |s| ==> s[i] == s[1..][i - 1];
    }
  }

  lemma {:induction false} SafeSpellsItself(s: seq<byte>, part: bool)
    requires AllSafe(s, part)
    ensures Spells(s, s, part)
  {
    if s != [] { SafeSpellsItself(s[1..], part); }
  }

  /** A string is its own encoding exactly if all its bytes are safe. */
  lemma UnchangedIff(s: seq<byte>, part: bool)
    ensures Encode(s, part) == s <==> AllSafe(s, part)
  {
    EncodeSpells(s, s, part);
    UnsafeIsNone(s, part);
    if Spells(s, s, part) { SpelledLength(s, s, part); }
    if AllSafe(s, part) { SafeSpellsItself(s, part); }
  }

  /** Each unsafe byte costs two bytes more. */
  lemma {:induction false} SpelledLength(out: seq<byte>, s: seq<byte>, part: bool)
    requires Spells(out, s, part)
    ensures |out| == |s| + 2 * Unsafe(s, part)
  {
    if s != [] { SpelledLength(out[if Safe(s[0], part) then 1 else 3..], s[1..], part); }
  }

  function Unsafe(s: seq<byte>, part: bool): nat {
    if s == [] then 0 else Unsafe(s[1..], part) + if Safe(s[0], part) then 0 else 1
  }

  // ----- reading -----

  predicate Digit(x: char) { '0' <= x <= '9' || 'a' <= x <= 'f' || 'A' <= x <= 'F' }

  /** The value of a hexadecimal digit, upper or lower case. */
  function ValueOf(x: char): (v: nat)
    requires Digit(x)
    ensures v < 16
  {
    if x <= '9' then x as int - '0' as int
    else if x >= 'a' then 10 + x as int - 'a' as int
    else 10 + x as int - 'A' as int
  }

  /** Control characters and DEL are shown as underscores. */
  function Shown(v: byte): byte { if v < 32 || v == 127 then '_' as int else v }

  predicate StartsEscape(s: seq<byte>) {
    |s| >= 3 && s[0] as char == '%' && Digit(s[1] as char) && Digit(s[2] as char)
  }

  /** The decoder reads an escape as the byte it names, in a query a plus as a space, and every
      other byte as itself. */
  lemma DecodeReads(s: seq<byte>, query: bool)
    requires s != []
    ensures Decode(s, query) ==
      if query && s[0] as char == '+' then [' ' as int] + Decode(s[1..], query)
      else if StartsEscape(s)
      then [Shown(16 * ValueOf(s[1] as char) + ValueOf(s[2] as char))] + Decode(s[3..], query)
      else [s[0]] + Decode(s[1..], query)
  {
  }

  /** So the round trip is the identity exactly on strings without control characters and DEL. */
  lemma RoundTripIs(s: seq<byte>, part: bool, query: bool)
    ensures Decode(Encode(s, part), query) == s <==> forall i :: 0 <= i < |s| ==> Shown(s[i]) == s[i]
  {
    RoundTripIff(s, part, query);
  }
}
