/**
 * buffer_caseless_compare (buffer.c): the order of the keys of an array.  Characters are
 * signed bytes; a letter is folded only when it meets a letter of the other case.
 */
module CaselessOrder {

  type Char = x: int | -128 <= x < 128

  const WORD := 8

  predicate Upper(c: Char) { 65 <= c <= 90 }

  predicate Lower(c: Char) { 97 <= c <= 122 }

  /** The six characters between the upper and the lower case letters. */
  predicate Between(c: Char) { 91 <= c <= 96 }

  /** a1 - b1, after the fold. */
  function CharDiff(a: Char, b: Char): int {
    if Upper(a) && Lower(b) then a + 32 - b
    else if Lower(a) && Upper(b) then a - (b + 32)
    else a - b
  }

  /** The comparison from index i on. */
  function CompareFrom(a: seq<Char>, b: seq<Char>, i: nat): int
    requires i <= |a| && i <= |b|
    decreases |a| - i
  {
    if i == |a| || i == |b| then |a| - |b|
    else if CharDiff(a[i], b[i]) != 0 then CharDiff(a[i], b[i])
    else CompareFrom(a, b, i + 1)
  }

  function Compare(a: seq<Char>, b: seq<Char>): int { CompareFrom(a, b, 0) }

  lemma {:induction false} SkipEqual(a: seq<Char>, b: seq<Char>, i: nat, j: nat)
    requires i <= j <= |a| && j <= |b| && a[i..j] == b[i..j]
    ensures CompareFrom(a, b, i) == CompareFrom(a, b, j)
    decreases j - i
  {
    if i < j {
      assert a[i] == a[i..j][0] == b[i..j][0] == b[i];
      assert a[i + 1..j] == a[i..j][1..] == b[i..j][1..] == b[i + 1..j];
      SkipEqual(a, b, i + 1, j);
    }
  }

  /** The code: whole words are skipped while they are equal and both strings are aligned, the
      rest is compared character by character.  The words make no difference. */
  method CaselessCompare(a: seq<Char>, b: seq<Char>, aligned: bool) returns (r: int)
    ensures r == Compare(a, b)
  {
    var shorter := if |a| < |b| then |a| else |b|;
    var ndx := 0;
    if aligned {
      var max := shorter / WORD * WORD;
      while ndx < max
        invariant 0 <= ndx <= max <= shorter && ndx % WORD == 0 && max % WORD == 0
        invariant Compare(a, b) == CompareFrom(a, b, ndx)
      {
        if a[ndx..ndx + WORD] != b[ndx..ndx + WORD] { break; }
        SkipEqual(a, b, ndx, ndx + WORD);
        ndx := ndx + WORD;
      }
    }
    while ndx < shorter
      invariant 0 <= ndx <= shorter && Compare(a, b) == CompareFrom(a, b, ndx)
    {
      var a1: int, b1: int := a[ndx], b[ndx];
      if a1 != b1 {
        if 65 <= a1 <= 90 && 97 <= b1 <= 122 {
          a1 := a1 + 32;
        } else if 97 <= a1 <= 122 && 65 <= b1 <= 90 {
          b1 := b1 + 32;
        }
        if a1 - b1 != 0 { return a1 - b1; }
      }
      ndx := ndx + 1;
    }
    if |a| == |b| { return 0; }
    return |a| - |b|;
  }

  // ----- what the comparison decides -----

  function Fold(c: Char): Char { if Upper(c) then c + 32 else c }

  function Folded(s: seq<Char>): (r: seq<Char>)
    ensures |r| == |s|
  {
    seq(|s|, i requires 0 <= i < |s| => Fold(s[i]))
  }

  lemma {:induction false} ZeroFrom(a: seq<Char>, b: seq<Char>, i: nat)
    requires i <= |a| && i <= |b|
    ensures CompareFrom(a, b, i) == 0 <==>
      |a| == |b| && forall k :: i <= k < |a| ==> Fold(a[k]) == Fold(b[k])
    decreases |a| - i
  {
    if i < |a| && i < |b| {
      assert CharDiff(a[i], b[i]) == 0 <==> Fold(a[i]) == Fold(b[i]);
      ZeroFrom(a, b, i + 1);
    }
  }

  /** Two keys compare as equal exactly when they differ in the case of letters only. */
  lemma EqualIffFolded(a: seq<Char>, b: seq<Char>)
    ensures Compare(a, b) == 0 <==> Folded(a) == Folded(b)
  {
    ZeroFrom(a, b, 0);
    var fa, fb := Folded(a), Folded(b);
    if fa == fb {
      forall k | 0 <= k < |a| ensures Fold(a[k]) == Fold(b[k]) { assert fa[k] == fb[k]; }
    }
  }

  lemma {:induction false} Antisymmetric(a: seq<Char>, b: seq<Char>, i: nat)
    requires i <= |a| && i <= |b|
    ensures CompareFrom(a, b, i) == -CompareFrom(b, a, i)
    decreases |a| - i
  {
    if i < |a| && i < |b| { Antisymmetric(a, b, i + 1); }
  }

  /** The same character, or the same letter in the two cases. */
  predicate SameLetter(x: Char, y: Char) {
    x == y || ('A' as int <= x <= 'Z' as int && y == x + 32) || ('A' as int <= y <= 'Z' as int && x == y + 32)
  }

  /** x comes before y: letters of different case as if both were small, all else by its code. */
  predicate Earlier(x: Char, y: Char) {
    if 'A' as int <= x <= 'Z' as int && 'a' as int <= y <= 'z' as int then x + 32 < y
    else if 'a' as int <= x <= 'z' as int && 'A' as int <= y <= 'Z' as int then x < y + 32
    else x < y
  }

  /** The first place where the keys differ decides; if there is none, the shorter key comes first. */
  lemma {:induction false} CompareDecides(a: seq<Char>, b: seq<Char>, i: nat, k: nat)
    requires i <= k <= |a| && k <= |b| && forall j :: i <= j < k ==> SameLetter(a[j], b[j])
    requires k < |a| && k < |b| ==> !SameLetter(a[k], b[k])
    ensures if k < |a| && k < |b|
            then (CompareFrom(a, b, i) < 0 <==> Earlier(a[k], b[k])) && CompareFrom(a, b, i) != 0
            else CompareFrom(a, b, i) == |a| - |b|
    decreases k - i
  {
    if i < k { CompareDecides(a, b, i + 1, k); }
  }

  // ----- when it is an order -----

  /** No character between the cases together with letters X and y that it separates although
      the fold puts y no later than X. */
  ghost predicate Orderly(alphabet: set<Char>) {
    forall x, z, y :: x in alphabet && z in alphabet && y in alphabet ==> !Clash(x, z, y)
  }

  predicate Clash(x: Char, z: Char, y: Char) {
    Upper(x) && Between(z) && Lower(y) && y <= x + 32
  }

  ghost predicate Transitive(alphabet: set<Char>) {
    forall a, b, c :: a in alphabet && b in alphabet && c in alphabet ==> Chain(a, b, c)
  }

  predicate Chain(a: Char, b: Char, c: Char) {
    CharDiff(a, b) <= 0 && CharDiff(b, c) <= 0 ==> CharDiff(a, c) <= 0
  }

  lemma ChainUnlessClash(a: Char, b: Char, c: Char)
    requires !Clash(a, b, c) && !Clash(b, c, a) && !Clash(c, a, b)
    ensures Chain(a, b, c)
  {
  }

  lemma ClashBreaksChain(x: Char, z: Char, y: Char)
    requires Clash(x, z, y)
    ensures !Chain(x, z, y) || !Chain(z, y, x)
  {
  }

  /** The comparison of characters is transitive on exactly the orderly alphabets. */
  lemma TransitiveIffOrderly(alphabet: set<Char>)
    ensures Transitive(alphabet) <==> Orderly(alphabet)
  {
    if Orderly(alphabet) {
      forall a, b, c | a in alphabet && b in alphabet && c in alphabet ensures Chain(a, b, c) {
        ChainUnlessClash(a, b, c);
      }
    }
    if Transitive(alphabet) {
      forall x, z, y | x in alphabet && z in alphabet && y in alphabet ensures !Clash(x, z, y) {
        assert Chain(x, z, y) && Chain(z, y, x);
        if Clash(x, z, y) { ClashBreaksChain(x, z, y); }
      }
    }
  }

  ghost predicate Over(s: seq<Char>, alphabet: set<Char>) {
    forall i :: 0 <= i < |s| ==> s[i] in alphabet
  }

  lemma CharChain(a: Char, b: Char, c: Char, alphabet: set<Char>)
    requires Orderly(alphabet) && a in alphabet && b in alphabet && c in alphabet
    requires CharDiff(a, b) <= 0 && CharDiff(b, c) <= 0
    ensures CharDiff(a, c) <= 0
    ensures CharDiff(a, c) == 0 <==> CharDiff(a, b) == 0 && CharDiff(b, c) == 0
  {
    TransitiveIffOrderly(alphabet);
    assert Chain(a, b, c) && Chain(b, c, a) && Chain(c, a, b);
  }

  /** Over an orderly alphabet, the comparison of keys is transitive, strictly if one of the
      two steps is strict. */
  lemma {:induction false} CompareChain(a: seq<Char>, b: seq<Char>, c: seq<Char>, alphabet: set<Char>, i: nat)
    requires Orderly(alphabet) && Over(a, alphabet) && Over(b, alphabet) && Over(c, alphabet)
    requires i <= |a| && i <= |b| && i <= |c|
    requires CompareFrom(a, b, i) <= 0 && CompareFrom(b, c, i) <= 0
    ensures CompareFrom(a, c, i) <= 0
    ensures CompareFrom(a, c, i) == 0 <==> CompareFrom(a, b, i) == 0 && CompareFrom(b, c, i) == 0
    decreases |a| - i
  {
    if i < |a| && i < |b| && i < |c| {
      CharChain(a[i], b[i], c[i], alphabet);
      if CharDiff(a[i], b[i]) == 0 && CharDiff(b[i], c[i]) == 0 {
        CompareChain(a, b, c, alphabet, i + 1);
      }
    }
  }
}
