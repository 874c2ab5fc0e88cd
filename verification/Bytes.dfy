/** Bytes, and lighttpd's growing byte buffer (buffer.c). */
module Bytes {
  type byte = x: int | 0 <= x < 256

  const NUL: byte := 0
  const PIECE: nat := 64

  /** `ptr` holds the allocated bytes; the first `used` of them, terminator included, count. */
  class Buffer {
    var ptr: array<byte>
    var used: nat

    constructor ()
      ensures ptr.Length == 0 && used == 0 && fresh(ptr)
    {
      ptr := new byte[0];
      used := 0;
    }

    /** The buffer holds the string `s` and its terminator. */
    ghost predicate Holds(s: seq<byte>)
      reads this, ptr
    {
      used == |s| + 1 <= ptr.Length && ptr[..|s|] == s && ptr[|s|] == NUL && NUL !in s
    }

    /** buffer_prepare_copy: make room and drop the old contents. */
    method PrepareCopy(size: nat)
      modifies this
      ensures used == 0 && ptr.Length >= size
      ensures ptr == old(ptr) || fresh(ptr)
    {
      if ptr.Length == 0 || size > ptr.Length {
        ptr := new byte[size + (PIECE - size % PIECE)];
      }
      used := 0;
    }

    /** buffer_prepare_append: make room behind the contents. */
    method PrepareAppend(size: nat)
      requires used <= ptr.Length
      modifies this
      ensures used == old(used) && ptr.Length >= used + size && ptr[..used] == old(ptr[..used])
      ensures ptr == old(ptr) || fresh(ptr)
    {
      if used + size > ptr.Length {
        var n := if ptr.Length == 0 then size else ptr.Length + size;
        var bigger := new byte[n + (PIECE - n % PIECE)];
        for i := 0 to used
          invariant ptr == old(ptr) && used == old(used)
          invariant forall k :: 0 <= k < i ==> bigger[k] == ptr[k]
        {
          bigger[i] := ptr[i];
        }
        ptr := bigger;
      }
    }
  }

  function Flatten(parts: seq<seq<byte>>): seq<byte> {
    if parts == [] then [] else Flatten(parts[..|parts| - 1]) + parts[|parts| - 1]
  }

  lemma FlattenLast(parts: seq<seq<byte>>, i: nat)
    requires i < |parts|
    ensures Flatten(parts[..i + 1]) == Flatten(parts[..i]) + parts[i]
  {
    assert parts[..i + 1][..i] == parts[..i];
  }

  lemma {:induction false} FlattenFirst(parts: seq<seq<byte>>)
    requires parts != []
    ensures Flatten(parts) == parts[0] + Flatten(parts[1..])
  {
    var n := |parts| - 1;
    if n == 0 {
      assert Flatten(parts) == Flatten([]) + parts[0];
    } else {
      FlattenFirst(parts[..n]);
      assert parts[1..][..n - 1] == parts[..n][1..];
      assert (parts[0] + Flatten(parts[..n][1..])) + parts[n] == parts[0] + (Flatten(parts[..n][1..]) + parts[n]);
    }
  }

  /** memcpy() */
  method Copy(a: array<byte>, at: nat, s: seq<byte>)
    requires at + |s| <= a.Length
    modifies a
    ensures a[..at + |s|] == old(a[..at]) + s
  {
    for j := 0 to |s|
      invariant a[..at + j] == old(a[..at]) + s[..j]
    {
      a[at + j] := s[j];
    }
  }
}
