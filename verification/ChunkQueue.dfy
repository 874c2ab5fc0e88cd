/**
 * chunkqueue (chunk.c): a linked list of chunks waiting to be written, with a small stock of
 * unused chunks.  Ghost sequences name the nodes of the two lists.
 */
module ChunkQueue {
  import opened Bytes

  /** What a chunk holds, and how much of it is written. */
  datatype Cell = Cell(data: seq<byte>, offset: nat)

  predicate CellOk(c: Cell) { c.offset <= |c.data| }

  ghost predicate CellsOk(cells: seq<Cell>) { forall i :: 0 <= i < |cells| ==> CellOk(cells[i]) }

  /** The bytes still to be written, in order. */
  function Pending(cells: seq<Cell>): seq<byte>
    requires forall i :: 0 <= i < |cells| ==> CellOk(cells[i])
  {
    if cells == [] then [] else
      assert CellOk(cells[0]);
      cells[0].data[cells[0].offset..] + Pending(cells[1..])
  }

  lemma {:induction false} PendingAppend(cells: seq<Cell>, c: Cell)
    requires CellsOk(cells) && CellOk(c)
    ensures CellsOk(cells + [c]) && Pending(cells + [c]) == Pending(cells) + c.data[c.offset..]
  {
    if cells == [] {
      assert cells + [c] == [c];
      assert Pending([c]) == c.data[c.offset..] + Pending([]);
    } else {
      PendingAppend(cells[1..], c);
      assert (cells + [c])[1..] == cells[1..] + [c];
      assert cells[0].data[cells[0].offset..] + (Pending(cells[1..]) + c.data[c.offset..]) ==
             cells[0].data[cells[0].offset..] + Pending(cells[1..]) + c.data[c.offset..];
    }
  }

  function Total(cells: seq<Cell>, n: nat): nat
    requires n <= |cells|
  {
    if n == 0 then 0 else Total(cells, n - 1) + |cells[n - 1].data|
  }

  function Done(cells: seq<Cell>, n: nat): nat
    requires n <= |cells|
  {
    if n == 0 then 0 else Done(cells, n - 1) + cells[n - 1].offset
  }

  /** The length minus what is written is what is pending. */
  lemma {:induction false} PendingIsTotalLessDone(cells: seq<Cell>, n: nat)
    requires n <= |cells| && CellsOk(cells)
    ensures CellsOk(cells[..n]) && |Pending(cells[..n])| == Total(cells, n) - Done(cells, n)
  {
    if n > 0 {
      PendingIsTotalLessDone(cells, n - 1);
      PendingAppend(cells[..n - 1], cells[n - 1]);
      assert cells[..n] == cells[..n - 1] + [cells[n - 1]];
    }
  }

  // ----- lists of chunks -----

  /** `spot` numbers the chunks of a queue: 1 and up for those waiting, -1 and down for the
      unused ones, 0 for a chunk in neither list. */
  class Chunk {
    var data: seq<byte>
    var offset: nat
    var next: Chunk?
    ghost var spot: int

    constructor ()
      ensures next == null && spot == 0
    {
      next := null;
      data, offset := [], 0;
      spot := 0;
    }
  }

  function First(nodes: seq<Chunk>, i: nat): Chunk? {
    if i < |nodes| then nodes[i] else null
  }

  ghost predicate Linked(head: Chunk?, nodes: seq<Chunk>)
    reads nodes
  {
    && head == First(nodes, 0)
    && forall i {:trigger nodes[i].next} :: 0 <= i < |nodes| ==> nodes[i].next == First(nodes, i + 1)
  }

  ghost predicate Placed(nodes: seq<Chunk>, base: int)
    reads nodes
  {
    forall i {:trigger nodes[i].spot} :: 0 <= i < |nodes| ==> nodes[i].spot == base + i
  }

  lemma Elsewhere(nodes: seq<Chunk>, base: int, c: Chunk)
    requires Placed(nodes, base) && !(base <= c.spot < base + |nodes|)
    ensures forall i :: 0 <= i < |nodes| ==> nodes[i] != c
  {
    forall i | 0 <= i < |nodes| ensures nodes[i] != c { assert nodes[i].spot == base + i; }
  }

  lemma AllElsewhere(nodes: seq<Chunk>, base: int, others: set<Chunk>)
    requires Placed(nodes, base) && forall c :: c in others ==> !(base <= c.spot < base + |nodes|)
    ensures forall i :: 0 <= i < |nodes| ==> nodes[i] !in others
  {
    forall i | 0 <= i < |nodes| ensures nodes[i] !in others { assert nodes[i].spot == base + i; }
  }

  lemma PlacedTail(nodes: seq<Chunk>, base: int)
    requires Placed(nodes, base) && nodes != []
    ensures nodes[0].spot == base && Placed(nodes[1..], base + 1)
    ensures forall i :: 0 < i < |nodes| ==> nodes[i] != nodes[0]
  {
    var rest := nodes[1..];
    forall i {:trigger rest[i].spot} | 0 <= i < |rest| ensures rest[i].spot == base + 1 + i {
      assert rest[i] == nodes[i + 1] && nodes[i + 1].spot == base + (i + 1);
    }
    forall i | 0 < i < |nodes| ensures nodes[i] != nodes[0] { assert nodes[i].spot == base + i; }
  }

  ghost function Cells(nodes: seq<Chunk>): (cells: seq<Cell>)
    reads nodes
    ensures |cells| == |nodes|
  {
    seq(|nodes|, i requires 0 <= i < |nodes| reads nodes => Cell(nodes[i].data, nodes[i].offset))
  }

  /** The chunk is linked behind the last one. */
  method Hook(ghost nodes: seq<Chunk>, ghost base: int, ghost tail: set<Chunk>, last: Chunk?, c: Chunk,
              ghost unused: Chunk?, ghost spare: seq<Chunk>)
    requires Linked(unused, spare) && Placed(spare, -|spare|)
    requires Linked(First(nodes, 0), nodes) && Placed(nodes, base) && base >= 1
    requires last == (if nodes == [] then null else nodes[|nodes| - 1]) && c.next == null && c.spot == 0
    requires tail == if last == null then {} else {last}
    modifies tail`next, c`spot
    ensures Linked(First(nodes + [c], 0), nodes + [c]) && Placed(nodes + [c], base)
    ensures Cells(nodes + [c]) == old(Cells(nodes)) + [Cell(c.data, c.offset)]
    ensures Linked(unused, spare) && Placed(spare, -|spare|)
  {
    Elsewhere(nodes, base, c);
    assert last != null ==> last.spot >= 1;
    AllElsewhere(spare, -|spare|, tail + {c});
    if last != null {
      Elsewhere(nodes[..|nodes| - 1], base, last);
      last.next := c;
    }
    c.spot := base + |nodes|;
  }

  class Queue {
    var first: Chunk?
    var last: Chunk?
    var unused: Chunk?
    var unusedChunks: nat
    ghost var chunks: seq<Chunk>
    ghost var spare: seq<Chunk>
    ghost var base: int

    ghost predicate Valid()
      reads this, chunks, spare
    {
      && Linked(first, chunks) && Placed(chunks, base) && base >= 1
      && last == (if chunks == [] then null else chunks[|chunks| - 1])
      && Linked(unused, spare) && Placed(spare, -|spare|) && unusedChunks == |spare| <= 5
      && CellsOk(Cells(chunks))
    }

    ghost function Nodes(): set<Chunk>
      reads this
    {
      (set x | x in chunks) + (set x | x in spare)
    }

    /** The bytes to be written. */
    ghost function Stream(): seq<byte>
      requires Valid()
      reads this, chunks, spare
    {
      Pending(Cells(chunks))
    }

    constructor ()
      ensures Valid() && chunks == [] && spare == []
    {
      first, last, unused, unusedChunks := null, null, null, 0;
      chunks, spare, base := [], [], 1;
    }

    /** chunkqueue_get_unused_chunk */
    method GetUnusedChunk() returns (c: Chunk)
      requires Valid()
      modifies this, spare
      ensures Valid() && chunks == old(chunks) && Cells(chunks) == old(Cells(chunks))
      ensures c.next == null && c.spot == 0
      ensures fresh(c) || c in old(spare)
      ensures forall x :: x in spare ==> x in old(spare)
    {
      if unused == null {
        c := new Chunk();
      } else {
        c := unused;
        ghost var rest := spare[1..];
        PlacedTail(spare, -|spare|);
        assert forall i {:trigger rest[i].next} :: 0 <= i < |rest| ==> rest[i] == spare[i + 1];
        Elsewhere(chunks, base, c);
        unused := c.next;
        spare := rest;
        c.next, c.spot := null, 0;
        unusedChunks := unusedChunks - 1;
      }
    }

    /** chunkqueue_append_chunk */
    method AppendChunk(c: Chunk)
      requires Valid() && c.next == null && c.spot == 0 && c.offset <= |c.data|
      modifies `first, `last, `chunks, chunks`next, c`spot
      ensures Valid() && chunks == old(chunks) + [c] && spare == old(spare)
      ensures Cells(chunks) == old(Cells(chunks)) + [Cell(c.data, c.offset)]
    {
      PendingAppend(Cells(chunks), Cell(c.data, c.offset));
      ghost var tail := if last == null then {} else {last};
      Hook(chunks, base, tail, last, c, unused, spare);
      last := c;
      if first == null { first := c; }
      chunks := chunks + [c];
    }

    /** chunkqueue_append_mem, for a text of len - 1 bytes; chunkqueue_append_buffer, for the
        text of a buffer in use. */
    method AppendMem(text: seq<byte>)
      requires Valid()
      modifies this, Nodes()
      ensures Valid() && Stream() == old(Stream()) + text && fresh(Nodes() - old(Nodes()))
    {
      var c := GetUnusedChunk();
      Elsewhere(chunks, base, c);
      c.data, c.offset := text, 0;
      PendingAppend(Cells(chunks), Cell(text, 0));
      AppendChunk(c);
      assert text[0..] == text;
    }

    /** The first chunk leaves the queue. */
    method TakeFirst() returns (c: Chunk)
      requires Valid() && chunks != []
      modifies this, chunks
      ensures Valid() && chunks == old(chunks)[1..] && Cells(chunks) == old(Cells(chunks))[1..]
      ensures spare == old(spare) && c == old(chunks)[0] && c.spot == 0
    {
      c := first;
      ghost var cells, rest := Cells(chunks), chunks[1..];
      PlacedTail(chunks, base);
      assert forall i {:trigger rest[i].next} :: 0 <= i < |rest| ==> rest[i] == chunks[i + 1];
      Elsewhere(spare, -|spare|, c);
      first := c.next;
      if c == last { last := null; }
      c.data, c.offset, c.spot := [], 0, 0;
      chunks, base := rest, base + 1;
      assert Cells(rest) == cells[1..];
    }

    /** It goes to the unused ones, or is freed when there are five of them. */
    method Discard(c: Chunk)
      requires Valid() && c.spot == 0
      modifies this, c
      ensures Valid() && chunks == old(chunks) && Cells(chunks) == old(Cells(chunks))
      ensures spare == old(spare) || spare == [c] + old(spare)
    {
      Elsewhere(chunks, base, c);
      Elsewhere(spare, -|spare|, c);
      if unusedChunks <= 4 {
        c.next := unused;
        unused := c;
        unusedChunks := unusedChunks + 1;
        spare := [c] + spare;
        c.spot := -|spare|;
      }
    }

    method RemoveFirst()
      requires Valid() && chunks != []
      modifies this, Nodes()
      ensures Valid() && chunks == old(chunks)[1..] && Cells(chunks) == old(Cells(chunks))[1..]
      ensures Nodes() <= old(Nodes())
    {
      var c := TakeFirst();
      Discard(c);
    }

    /** chunkqueue_remove_finished_chunks: what is to be written stays; afterwards the first
        chunk, if any, has bytes left. */
    method RemoveFinished()
      requires Valid()
      modifies this, Nodes()
      ensures Valid() && Stream() == old(Stream()) && Nodes() <= old(Nodes())
      ensures first != null ==> first.offset < |first.data|
    {
      while first != null && first.offset == |first.data|
        invariant Valid() && Stream() == old(Stream()) && Nodes() <= old(Nodes())
        decreases |chunks|
      {
        ghost var cells := Cells(chunks);
        assert cells[0].data[cells[0].offset..] == [];
        RemoveFirst();
      }
      if first != null { assert CellOk(Cells(chunks)[0]); }
    }

    /** chunkqueue_length and chunkqueue_written: their difference is what is to be written. */
    method Lengths() returns (length: nat, written: nat)
      requires Valid()
      ensures length == Total(Cells(chunks), |chunks|) && written == Done(Cells(chunks), |chunks|)
      ensures length - written == |Stream()|
    {
      ghost var cells := Cells(chunks);
      length, written := 0, 0;
      var c := first;
      ghost var i := 0;
      while c != null
        invariant i <= |chunks| && c == First(chunks, i) && length == Total(cells, i) && written == Done(cells, i)
        decreases |chunks| - i
      {
        length := length + |c.data|;
        written := written + c.offset;
        c := c.next;
        i := i + 1;
      }
      PendingIsTotalLessDone(cells, |cells|);
      assert cells[..|cells|] == cells;
    }

    /** The writer has sent n bytes of the first chunk. */
    method Wrote(n: nat)
      requires Valid() && first != null && first.offset + n <= |first.data|
      modifies chunks
      ensures Valid() && n <= |old(Stream())| && Stream() == old(Stream())[n..]
    {
      ghost var cells := Cells(chunks);
      PlacedTail(chunks, base);
      first.offset := first.offset + n;
      assert Cells(chunks) == cells[0 := Cell(cells[0].data, cells[0].offset + n)];
    }
  }
}
