/**
 * Chunked transfer coding (http_chunk.c) against a decoder for section 3.6.1 of RFC 2616,
 * without extensions and trailers.
 */
module HttpChunk {
  import opened Options
  import opened Bytes
  import opened Url
  import opened ChunkQueue

  const CRLF: seq<byte> := [13, 10]

  // ----- chunk sizes -----

  /** The low-order k digits of a number. */
  function Hex(n: nat, k: nat): (s: seq<byte>)
    ensures |s| == k && forall i :: 0 <= i < k ==> HexDigit(s[i])
    decreases k
  {
    if k == 0 then [] else Hex(n / 16, k - 1) + [HexChar(n % 16)]
  }

  /** How many digits http_chunk_append_len writes: those of the number, but eight at most. */
  function Digits(n: nat, limit: nat): (k: nat)
    ensures k <= limit
    decreases limit
  {
    if n == 0 || limit == 0 then 0 else 1 + Digits(n / 16, limit - 1)
  }

  function Header(n: nat): seq<byte> {
    (if n == 0 then [48] else Hex(n, Digits(n, 8))) + CRLF
  }

  /** The value of a string of digits, after the value of those before it. */
  function Value(s: seq<byte>, before: nat): nat
    requires forall i :: 0 <= i < |s| ==> HexDigit(s[i])
  {
    if s == [] then before else Value(s[1..], 16 * before + DigitValue(s[0]))
  }

  lemma {:induction false} ValueWith(s: seq<byte>, c: byte, before: nat)
    requires HexDigit(c) && forall i :: 0 <= i < |s| ==> HexDigit(s[i])
    ensures forall i :: 0 <= i < |s + [c]| ==> HexDigit((s + [c])[i])
    ensures Value(s + [c], before) == 16 * Value(s, before) + DigitValue(c)
  {
    if s != [] {
      assert (s + [c])[1..] == s[1..] + [c];
      ValueWith(s[1..], c, 16 * before + DigitValue(s[0]));
    } else {
      assert s + [c] == [c];
      assert Value([c][1..], 16 * before + DigitValue(c)) == 16 * before + DigitValue(c);
    }
  }

  /** n without its digits above the k low-order ones. */
  function Low(n: nat, k: nat): nat
    decreases k
  {
    if k == 0 then 0 else 16 * Low(n / 16, k - 1) + n % 16
  }

  lemma {:induction false} ValueOfHex(n: nat, k: nat)
    ensures Value(Hex(n, k), 0) == Low(n, k)
    decreases k
  {
    if k > 0 {
      ValueOfHex(n / 16, k - 1);
      ValueWith(Hex(n / 16, k - 1), HexChar(n % 16), 0);
    }
  }

  function Power16(k: nat): (p: nat)
    ensures p > 0
  {
    if k == 0 then 1 else 16 * Power16(k - 1)
  }

  /** With at most `limit` digits the number is written whole exactly if it is below 16^limit. */
  lemma {:induction false} WholeIff(n: nat, limit: nat)
    ensures Low(n, Digits(n, limit)) == n <==> n < Power16(limit)
    decreases limit
  {
    if n != 0 && limit != 0 {
      WholeIff(n / 16, limit - 1);
    }
  }

  // ----- the decoder -----

  /** The digits in front, as a number, and what follows them. */
  function Size(s: seq<byte>, before: nat): (r: (nat, seq<byte>))
    ensures |r.1| <= |s|
  {
    if s == [] || !HexDigit(s[0]) then (before, s) else Size(s[1..], 16 * before + DigitValue(s[0]))
  }

  predicate Starts(s: seq<byte>, n: nat) { n + 2 <= |s| && s[n..n + 2] == CRLF }

  /** A chunked body in front of s: its text, and what follows it. */
  function Decoded(s: seq<byte>): Option<(seq<byte>, seq<byte>)>
    decreases |s|
  {
    var (n, rest) := Size(s, 0);
    if |rest| == |s| || !Starts(rest, 0) then None
    else
      var body := rest[2..];
      if n == 0 then (if Starts(body, 0) then Some(([], body[2..])) else None)
      else if !Starts(body, n) then None
      else
        match Decoded(body[n + 2..])
        case None => None
        case Some((text, left)) => Some((body[..n] + text, left))
  }

  // ----- what is put on the wire -----

  /** A payload as http_chunk_append_mem and http_chunk_append_buffer send it. */
  function Wire(p: seq<byte>): seq<byte> { Header(|p|) + p + CRLF }

  function End(): seq<byte> { [48] + CRLF + CRLF }

  function Body(payloads: seq<seq<byte>>): seq<byte> {
    if payloads == [] then End() else Wire(payloads[0]) + Body(payloads[1..])
  }

  /** The line end and the end of a body in characters. */
  lemma LineEnds()
    ensures |CRLF| == 2 && CRLF[0] as char == '\r' && CRLF[1] as char == '\n'
    ensures |End()| == 5 && forall i :: 0 <= i < 5 ==> End()[i] as char == "0\r\n\r\n"[i]
  {
  }

  lemma {:induction false} SizeSkips(s: seq<byte>, rest: seq<byte>, before: nat)
    requires (forall i :: 0 <= i < |s| ==> HexDigit(s[i])) && (rest != [] ==> !HexDigit(rest[0]))
    ensures Size(s + rest, before) == (Value(s, before), rest)
  {
    if s != [] {
      assert (s + rest)[1..] == s[1..] + rest;
      SizeSkips(s[1..], rest, 16 * before + DigitValue(s[0]));
    } else {
      assert s + rest == rest;
    }
  }

  lemma SizeOfHeader(n: nat, rest: seq<byte>)
    requires n < 0x1_0000_0000
    ensures Size(Header(n) + rest, 0) == (n, CRLF + rest) && |Header(n)| > 2
  {
    if n == 0 {
      assert Header(n) + rest == [48] + (CRLF + rest);
      SizeSkips([48], CRLF + rest, 0);
      assert Value([48][1..], 0) == 0;
    } else {
      var k := Digits(n, 8);
      assert Header(n) + rest == Hex(n, k) + (CRLF + rest);
      SizeSkips(Hex(n, k), CRLF + rest, 0);
      ValueOfHex(n, k);
      assert Power16(8) == 0x1_0000_0000;
      WholeIff(n, 8);
    }
  }

  /** The size in front of a chunk is its length exactly below 2^32: eight digits are all that
      is written. */
  lemma HeaderIsLengthIff(n: nat)
    requires n > 0
    ensures Value(Hex(n, Digits(n, 8)), 0) == n <==> n < 0x1_0000_0000
  {
    ValueOfHex(n, Digits(n, 8));
    assert Power16(8) == 0x1_0000_0000;
    WholeIff(n, 8);
  }

  lemma DecodeChunk(p: seq<byte>, rest: seq<byte>)
    requires p != [] && |p| < 0x1_0000_0000
    ensures Decoded(Wire(p) + rest) == match Decoded(rest) case None => None case Some((t, left)) => Some((p + t, left))
  {
    var s, tail := Wire(p) + rest, p + CRLF + rest;
    assert s == Header(|p|) + tail;
    SizeOfHeader(|p|, tail);
    assert Starts(CRLF + tail, 0) && (CRLF + tail)[2..] == tail;
    assert Starts(tail, |p|) && tail[..|p|] == p && tail[|p| + 2..] == rest;
  }

  lemma DecodeEnd(rest: seq<byte>)
    ensures Decoded(End() + rest) == Some(([], rest))
  {
    var s := End() + rest;
    assert s == Header(0) + (CRLF + rest);
    SizeOfHeader(0, CRLF + rest);
    assert (CRLF + (CRLF + rest))[2..] == CRLF + rest;
    assert Starts(CRLF + rest, 0) && (CRLF + rest)[2..] == rest;
  }

  /** An empty payload looks like the end of the body. */
  lemma EmptyEndsBody()
    ensures Wire([]) == End()
  {
  }

  lemma OneChunkMore(payloads: seq<seq<byte>>, k: nat)
    requires 0 < k <= |payloads|
    ensures Flatten(payloads[..k]) == payloads[0] + Flatten(payloads[1..][..k - 1])
    ensures k < |payloads| ==> payloads[1..][k..] == payloads[k + 1..]
  {
    FlattenFirst(payloads[..k]);
    assert payloads[..k][1..] == payloads[1..][..k - 1];
  }

  /** The decoder stops at the first empty payload, or at the end. */
  lemma {:induction false} DecodeBody(payloads: seq<seq<byte>>, k: nat)
    requires k <= |payloads| && (forall i :: 0 <= i < |payloads| ==> |payloads[i]| < 0x1_0000_0000)
    requires (forall i :: 0 <= i < k ==> payloads[i] != []) && (k < |payloads| ==> payloads[k] == [])
    ensures Decoded(Body(payloads)) ==
      Some((Flatten(payloads[..k]), if k == |payloads| then [] else Body(payloads[k + 1..])))
  {
    if k == 0 {
      assert payloads[..0] == [];
      if payloads == [] {
        DecodeEnd([]);
        assert End() + [] == End();
      } else {
        EmptyEndsBody();
        DecodeEnd(Body(payloads[1..]));
      }
    } else {
      DecodeBody(payloads[1..], k - 1);
      DecodeChunk(payloads[0], Body(payloads[1..]));
      OneChunkMore(payloads, k);
    }
  }

  function FirstEmpty(payloads: seq<seq<byte>>): (k: nat)
    ensures k <= |payloads| && (forall i :: 0 <= i < k ==> payloads[i] != [])
    ensures k < |payloads| ==> payloads[k] == []
  {
    if payloads == [] || payloads[0] == [] then 0 else
      var k := FirstEmpty(payloads[1..]);
      assert forall i :: 0 < i < k + 1 ==> payloads[i] == payloads[1..][i - 1];
      k + 1
  }

  lemma BodyNotEmpty(payloads: seq<seq<byte>>)
    ensures Body(payloads) != []
  {
  }

  /** The body decodes to the payloads, with nothing left over, exactly if none is empty. */
  lemma RoundTripIff(payloads: seq<seq<byte>>)
    requires forall i :: 0 <= i < |payloads| ==> |payloads[i]| < 0x1_0000_0000
    ensures Decoded(Body(payloads)) == Some((Flatten(payloads), [])) <==>
            forall i :: 0 <= i < |payloads| ==> payloads[i] != []
  {
    var k := FirstEmpty(payloads);
    DecodeBody(payloads, k);
    if k < |payloads| {
      BodyNotEmpty(payloads[k + 1..]);
    } else {
      assert payloads[..k] == payloads;
    }
  }

  // ----- http_chunk.c -----

  /** The digits of http_chunk_append_len, written from the last one to the first. */
  method WriteHex(b: Buffer, len: nat)
    requires len > 0
    modifies b, b.ptr
    ensures b.Holds(Hex(len, Digits(len, 8))) && (b.ptr == old(b.ptr) || fresh(b.ptr))
  {
    var i, n := 0, len;
    while i < 8 && n != 0
      invariant 0 <= i <= 8 && n >= 0 && Digits(len, 8) == i + Digits(n, 8 - i)
    {
      n := n / 16;
      i := i + 1;
    }
    b.PrepareCopy(i + 1);
    FillHex(b.ptr, len, i);
    b.used := i + 1;
    b.ptr[i] := NUL;
    assert b.ptr[..i] == Hex(len, i);
  }

  method FillHex(a: array<byte>, len: nat, i: nat)
    requires i <= a.Length
    modifies a
    ensures a[..i] == Hex(len, i)
  {
    var j, n := i, len;
    while j > 0
      invariant 0 <= j <= i && Hex(len, i) == Hex(n, j) + a[j..i]
    {
      a[j - 1] := HexChar(n % 16);
      assert a[j - 1..i] == [HexChar(n % 16)] + a[j..i];
      n := n / 16;
      j := j - 1;
    }
  }

  /** buffer_append_string_len */
  method AppendString(b: Buffer, s: seq<byte>, ghost text: seq<byte>)
    requires b.Holds(text) && NUL !in s
    modifies b, b.ptr
    ensures b.Holds(text + s) && (b.ptr == old(b.ptr) || fresh(b.ptr))
  {
    b.PrepareAppend(|s|);
    assert b.ptr[..b.used - 1] == b.ptr[..b.used][..b.used - 1] == text;
    Copy(b.ptr, b.used - 1, s);
    b.used := b.used + |s|;
    b.ptr[b.used - 1] := NUL;
  }

  /** The line in front of a chunk. */
  method WriteHeader(tmp: Buffer, len: nat)
    modifies tmp, tmp.ptr
    ensures tmp.Holds(Header(len)) && (tmp.ptr == old(tmp.ptr) || fresh(tmp.ptr))
  {
    if len == 0 {
      tmp.PrepareCopy(2);
      tmp.ptr[0], tmp.ptr[1], tmp.used := 48, NUL, 2;
      assert tmp.Holds([48]);
      AppendString(tmp, CRLF, [48]);
    } else {
      WriteHex(tmp, len);
      AppendString(tmp, CRLF, Hex(len, Digits(len, 8)));
    }
  }

  /** http_chunk_append_len */
  method AppendLen(q: Queue, tmp: Buffer, len: nat)
    requires q.Valid()
    modifies q, q.Nodes(), tmp, tmp.ptr
    ensures q.Valid() && q.Stream() == old(q.Stream()) + Header(len) && fresh(q.Nodes() - old(q.Nodes()))
    ensures tmp.ptr == old(tmp.ptr) || fresh(tmp.ptr)
  {
    WriteHeader(tmp, len);
    q.AppendMem(tmp.ptr[..tmp.used - 1]);
  }

  method AppendLine(q: Queue, text: seq<byte>)
    requires q.Valid()
    modifies q, q.Nodes()
    ensures q.Valid() && q.Stream() == old(q.Stream()) + (text + CRLF) && fresh(q.Nodes() - old(q.Nodes()))
  {
    ghost var before := q.Stream();
    q.AppendMem(text);
    q.AppendMem(CRLF);
    Regroup(before, text, CRLF);
  }

  /** The header, the text and the line end of a chunk, as three chunks of the queue. */
  method AppendWire(q: Queue, tmp: Buffer, text: seq<byte>)
    requires q.Valid()
    modifies q, q.Nodes(), tmp, tmp.ptr
    ensures q.Valid() && q.Stream() == old(q.Stream()) + Wire(text) && fresh(q.Nodes() - old(q.Nodes()))
    ensures tmp.ptr == old(tmp.ptr) || fresh(tmp.ptr)
  {
    ghost var before, header := q.Stream(), Header(|text|);
    AppendLen(q, tmp, |text|);
    AppendLine(q, text);
    Regroup(before, header, text + CRLF);
    Regroup(header, text, CRLF);
  }

  /** http_chunk_append_mem: `mem` is None for len == 0, else the len - 1 bytes. */
  method AppendMem(q: Queue, tmp: Buffer, chunked: bool, mem: Option<seq<byte>>)
    requires q.Valid()
    modifies q, q.Nodes(), tmp, tmp.ptr
    ensures q.Valid() && fresh(q.Nodes() - old(q.Nodes())) && (tmp.ptr == old(tmp.ptr) || fresh(tmp.ptr))
    ensures q.Stream() == old(q.Stream()) +
      match mem case None => (if chunked then End() else []) case Some(t) => if chunked then Wire(t) else t
  {
    if mem.None? {
      q.AppendMem(if chunked then End() else []);
    } else if chunked {
      AppendWire(q, tmp, mem.value);
    } else {
      q.AppendMem(mem.value);
    }
  }

  /** http_chunk_append_buffer: `mem` is None for a buffer with used == 0, whose length used - 1
      wraps around. */
  method AppendBuffer(q: Queue, tmp: Buffer, chunked: bool, mem: Option<seq<byte>>)
    requires q.Valid()
    modifies q, q.Nodes(), tmp, tmp.ptr
    ensures q.Valid() && fresh(q.Nodes() - old(q.Nodes())) && (tmp.ptr == old(tmp.ptr) || fresh(tmp.ptr))
    ensures q.Stream() == old(q.Stream()) +
      match mem
      case None => (if chunked then Header(0xffff_ffff_ffff_ffff) else [])
      case Some(t) => if chunked then Wire(t) else t
  {
    if mem.None? {
      if chunked {
        AppendLen(q, tmp, 0xffff_ffff_ffff_ffff);
      } else {
        assert q.Stream() + [] == q.Stream();
      }
    } else if chunked {
      AppendWire(q, tmp, mem.value);
    } else {
      q.AppendMem(mem.value);
    }
  }

  /** http_chunk_append_file, for the bytes of a file range. */
  method AppendFile(q: Queue, tmp: Buffer, chunked: bool, text: seq<byte>)
    requires q.Valid()
    modifies q, q.Nodes(), tmp, tmp.ptr
    ensures q.Valid() && fresh(q.Nodes() - old(q.Nodes())) && (tmp.ptr == old(tmp.ptr) || fresh(tmp.ptr))
    ensures q.Stream() == old(q.Stream()) + if !chunked then text else if text == [] then Header(0) else Wire(text)
  {
    if chunked && text == [] {
      AppendLen(q, tmp, 0);
    } else if chunked {
      AppendWire(q, tmp, text);
    } else if text != [] {
      q.AppendMem(text);
    } else {
      assert q.Stream() + [] == q.Stream();
    }
  }

  function Wires(payloads: seq<seq<byte>>): (w: seq<seq<byte>>)
    ensures |w| == |payloads|
  {
    seq(|payloads|, i requires 0 <= i < |payloads| => Wire(payloads[i]))
  }

  lemma FlattenWires(payloads: seq<seq<byte>>, i: nat)
    requires i < |payloads|
    ensures Flatten(Wires(payloads[..i + 1])) == Flatten(Wires(payloads[..i])) + Wire(payloads[i])
  {
    assert Wires(payloads[..i + 1])[..i] == Wires(payloads[..i]);
  }

  lemma FirstWire(payloads: seq<seq<byte>>)
    requires payloads != []
    ensures Flatten(Wires(payloads)) == Wire(payloads[0]) + Flatten(Wires(payloads[1..]))
  {
    var w, rest := Wires(payloads), payloads[1..];
    FlattenFirst(w);
    assert |w[1..]| == |Wires(rest)|;
    forall i | 0 <= i < |rest| ensures w[1..][i] == Wires(rest)[i] { assert rest[i] == payloads[i + 1]; }
    assert w[1..] == Wires(rest);
  }

  lemma {:induction false} BodyIsWires(payloads: seq<seq<byte>>)
    ensures Body(payloads) == Flatten(Wires(payloads)) + End()
  {
    if payloads != [] {
      BodyIsWires(payloads[1..]);
      FirstWire(payloads);
      Regroup(Wire(payloads[0]), Flatten(Wires(payloads[1..])), End());
    }
  }

  lemma Regroup(a: seq<byte>, b: seq<byte>, c: seq<byte>)
    ensures a + (b + c) == (a + b) + c
  {
  }

  /** A whole response body: one append for each payload, and the empty append at the end. */
  method SendBody(q: Queue, tmp: Buffer, payloads: seq<seq<byte>>)
    requires q.Valid() && q.Stream() == []
    modifies q, q.Nodes(), tmp, tmp.ptr
    ensures q.Valid() && q.Stream() == Body(payloads)
  {
    for i := 0 to |payloads|
      invariant q.Valid() && q.Stream() == Flatten(Wires(payloads[..i]))
      invariant fresh(q.Nodes() - old(q.Nodes())) && (tmp.ptr == old(tmp.ptr) || fresh(tmp.ptr))
    {
      FlattenWires(payloads, i);
      AppendMem(q, tmp, true, Some(payloads[i]));
    }
    assert payloads[..|payloads|] == payloads;
    AppendMem(q, tmp, true, None);
    BodyIsWires(payloads);
  }

  // ----- appends that spoil the body -----

  lemma {:induction false} DigitsAreCapped(n: nat, k: nat)
    requires n >= Power16(k)
    ensures Digits(n, k) == k
    decreases k
  {
    if k > 0 { DigitsAreCapped(n / 16, k - 1); }
  }

  lemma {:induction false} LowOfLarge(n: nat, k: nat, m: nat)
    requires n == Power16(k) * m + (Power16(k) - 1)
    ensures Low(n, k) == Power16(k) - 1
    decreases k
  {
    if k > 0 {
      assert Power16(k) * m == 16 * (Power16(k - 1) * m);
      LowOfLarge(n / 16, k - 1, m);
    }
  }

  lemma Announced()
    ensures Digits(0xffff_ffff_ffff_ffff, 8) == 8 && Value(Hex(0xffff_ffff_ffff_ffff, 8), 0) == 0xffff_ffff
  {
    var n, k := 0xffff_ffff_ffff_ffff, 8;
    assert Power16(8) == 0x1_0000_0000;
    DigitsAreCapped(n, k);
    LowOfLarge(n, k, 0xffff_ffff);
    ValueOfHex(n, k);
  }

  lemma TooShort(digits: seq<byte>, rest: seq<byte>)
    requires digits != [] && (forall i :: 0 <= i < |digits| ==> HexDigit(digits[i])) && Value(digits, 0) > |rest|
    ensures Decoded(digits + (CRLF + rest)) == None
  {
    SizeSkips(digits, CRLF + rest, 0);
    assert (CRLF + rest)[2..] == rest;
  }

  /** An unused buffer announces a chunk of 2^32 - 1 bytes and sends none: whatever follows is
      not a body any more, unless it is as long as that. */
  lemma UnusedBufferSpoils(rest: seq<byte>)
    requires |rest| < 0xffff_ffff
    ensures Decoded(Header(0xffff_ffff_ffff_ffff) + rest) == None
  {
    var digits := Hex(0xffff_ffff_ffff_ffff, 8);
    Announced();
    TooShort(digits, rest);
    Regroup(digits, CRLF, rest);
  }

  lemma BodyStartsWithDigit(payloads: seq<seq<byte>>)
    ensures Body(payloads) != [] && HexDigit(Body(payloads)[0])
  {
    if payloads != [] {
      var n := |payloads[0]|;
      assert Body(payloads)[0] == Header(n)[0];
      assert n != 0 ==> Digits(n, 8) > 0;
    }
  }

  /** An empty file leaves a size line of 0 without the end of the body behind it. */
  lemma EmptyFileSpoils(payloads: seq<seq<byte>>)
    ensures Decoded(Header(0) + Body(payloads)) == None
  {
    var body := Body(payloads);
    BodyStartsWithDigit(payloads);
    SizeOfHeader(0, body);
    assert (CRLF + body)[2..] == body;
  }
}
