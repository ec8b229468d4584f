/** The bump arena: aligned, disjoint allocations in chunks, handed out as handles that a clear invalidates. */
module Arena {
  import opened Wrappers

  datatype Layout = Layout(size: nat, align: nat)

  function AlignUp(x: nat, align: nat): (r: nat)
    requires align > 0
  {
    x + (align - x % align) % align
  }

  lemma MultipleHasNoRemainder(k: nat, a: nat)
    requires a > 0
    ensures (k * a) % a == 0
  {
    var q, m := (k * a) / a, (k * a) % a;
    assert q * a + m == k * a;
    assert (k - q) * a == m;
    MultiplesAreFar(k - q, a);
  }

  lemma MultiplesAreFar(d: int, a: int)
    requires a > 0
    ensures d >= 1 ==> d * a >= a
    ensures d <= -1 ==> d * a <= -a
  {
  }

  /** Rounding up gives the first multiple at or after the address. */
  lemma AlignUpIsFirst(x: nat, align: nat)
    requires align > 0
    ensures AlignUp(x, align) % align == 0 && x <= AlignUp(x, align) < x + align
  {
    var r := x % align;
    assert x == (x / align) * align + r;
    if r == 0 {
      assert (align - r) % align == 0;
    } else {
      assert (align - r) % align == align - r;
      assert AlignUp(x, align) == (x / align + 1) * align;
      MultipleHasNoRemainder(x / align + 1, align);
    }
  }

  datatype Chunk = Chunk(start: nat, end: nat, offset: nat) {
    ghost predicate Valid() { start <= offset <= end }

    /** The address for a request and the chunk after it, if there is room. */
    function Allocate(layout: Layout): (r: Option<(nat, Chunk)>)
      requires layout.align > 0
    {
      var aligned := AlignUp(offset, layout.align);
      if aligned + layout.size <= end then Some((aligned, this.(offset := aligned + layout.size))) else None
    }
  }

  /** A block handed out since the last clear. */
  datatype Block = Block(address: nat, layout: Layout)

  ghost predicate Disjoint(a: int, aSize: int, b: int, bSize: int) {
    a + aSize <= b || b + bSize <= a
  }

  ghost predicate ChunksDisjoint(chunks: seq<Chunk>) {
    forall i, j :: 0 <= i < j < |chunks| ==>
      Disjoint(chunks[i].start, chunks[i].end - chunks[i].start, chunks[j].start, chunks[j].end - chunks[j].start)
  }

  /** Block `b` is aligned and inside the used part of chunk `c`. */
  ghost predicate Inside(b: Block, c: Chunk) {
    && b.layout.align > 0 && b.address % b.layout.align == 0
    && c.start <= b.address && b.address + b.layout.size <= c.offset
  }

  ghost predicate Placed(b: Block, chunks: seq<Chunk>) {
    exists i :: 0 <= i < |chunks| && Inside(b, chunks[i])
  }

  ghost predicate BlocksDisjoint(blocks: seq<Block>) {
    forall i, j :: 0 <= i < j < |blocks| ==>
      Disjoint(blocks[i].address, blocks[i].layout.size, blocks[j].address, blocks[j].layout.size)
  }

  ghost predicate WellLaidOut(chunks: seq<Chunk>, current: nat, chunkSize: nat, blocks: seq<Block>) {
    && current < |chunks| && chunkSize > 0
    && (forall i :: 0 <= i < |chunks| ==> chunks[i].Valid() && chunks[i].end == chunks[i].start + chunkSize)
    && (forall i :: current < i < |chunks| ==> chunks[i].offset == chunks[i].start)
    && ChunksDisjoint(chunks) && BlocksDisjoint(blocks)
    && (forall k :: 0 <= k < |blocks| ==> Placed(blocks[k], chunks))
  }

  /** Blocks stay placed when a chunk's used part grows. */
  lemma StaysPlaced(b: Block, chunks: seq<Chunk>, i: nat, c: Chunk)
    requires Placed(b, chunks) && i < |chunks| && c.start == chunks[i].start && c.offset >= chunks[i].offset
    ensures Placed(b, chunks[i := c])
  {
    var k :| 0 <= k < |chunks| && Inside(b, chunks[k]);
    assert Inside(b, chunks[i := c][k]);
  }

  /** A block taken from the free part of chunk `i` touches no earlier block. */
  lemma FreeIsDisjoint(b: Block, chunks: seq<Chunk>, i: nat, address: nat, size: nat)
    requires Placed(b, chunks) && ChunksDisjoint(chunks) && i < |chunks|
    requires forall k :: 0 <= k < |chunks| ==> chunks[k].Valid()
    requires chunks[i].offset <= address && address + size <= chunks[i].end
    ensures Disjoint(b.address, b.layout.size, address, size)
  {
    var k :| 0 <= k < |chunks| && Inside(b, chunks[k]);
    if k != i {
      var lo, hi := if k < i then k else i, if k < i then i else k;
      assert Disjoint(chunks[lo].start, chunks[lo].end - chunks[lo].start, chunks[hi].start, chunks[hi].end - chunks[hi].start);
    }
  }

  lemma AllocationKeepsLayout(chunks: seq<Chunk>, current: nat, chunkSize: nat, blocks: seq<Block>, layout: Layout)
    requires WellLaidOut(chunks, current, chunkSize, blocks) && layout.align > 0 && chunks[current].Allocate(layout).Some?
    ensures var (address, chunk) := chunks[current].Allocate(layout).value;
            WellLaidOut(chunks[current := chunk], current, chunkSize, blocks + [Block(address, layout)])
  {
    var i := current;
    var (address, chunk) := chunks[i].Allocate(layout).value;
    AlignUpIsFirst(chunks[i].offset, layout.align);
    var chunks', blocks' := chunks[i := chunk], blocks + [Block(address, layout)];
    forall k | 0 <= k < |blocks'| ensures Placed(blocks'[k], chunks') {
      if k < |blocks| {
        StaysPlaced(blocks[k], chunks, i, chunk);
      } else {
        assert Inside(blocks'[k], chunks'[i]);
      }
    }
    forall k | 0 <= k < |blocks| ensures Disjoint(blocks[k].address, blocks[k].layout.size, address, layout.size) {
      FreeIsDisjoint(blocks[k], chunks, i, address, layout.size);
    }
    assert ChunksDisjoint(chunks');
  }

  /** The flag shared by the arena and the handles of one generation. */
  class Flag {
    var valid: bool
    constructor ()
      ensures valid
    {
      valid := true;
    }
  }

  datatype Handle = Handle(address: nat, flag: Flag)

  class Arena {
    var chunks: seq<Chunk>
    var elements: seq<nat>
    var flag: Flag
    var currentChunkIndex: nat
    const chunkSize: nat
    ghost var blocks: seq<Block>
    ghost var dropped: seq<nat>

    ghost predicate Valid()
      reads this, flag
    {
      && WellLaidOut(chunks, currentChunkIndex, chunkSize, blocks) && flag.valid
      && |elements| == |blocks| && forall k :: 0 <= k < |blocks| ==> elements[k] == blocks[k].address
    }

    /** The first chunk is wherever the system allocator puts it. */
    constructor (chunkSize: nat, at: nat)
      requires chunkSize > 0
      ensures Valid() && fresh(flag) && blocks == [] && dropped == [] && this.chunkSize == chunkSize
      ensures chunks == [Chunk(at, at + chunkSize, at)] && currentChunkIndex == 0
    {
      this.chunkSize := chunkSize;
      chunks := [Chunk(at, at + chunkSize, at)];
      elements, currentChunkIndex := [], 0;
      flag := new Flag();
      blocks, dropped := [], [];
    }

    /** Ends the generation: its handles become invalid, its elements are dropped once each, its chunks start over. */
    method Clear()
      requires Valid()
      modifies this, flag
      ensures Valid() && fresh(flag) && !old(flag).valid && blocks == [] && elements == []
      ensures dropped == old(dropped) + old(elements)
      ensures currentChunkIndex == 0 && |chunks| == |old(chunks)|
      ensures forall i :: 0 <= i < |chunks| ==> chunks[i] == Chunk(old(chunks)[i].start, old(chunks)[i].end, old(chunks)[i].start)
    {
      flag.valid := false;
      flag := new Flag();
      dropped := dropped + elements;
      elements, blocks := [], [];
      for i := 0 to currentChunkIndex + 1
        modifies this`chunks
        invariant |chunks| == |old(chunks)|
        invariant forall k :: 0 <= k < |chunks| ==> chunks[k] == if k < i then old(chunks)[k].(offset := old(chunks)[k].start) else old(chunks)[k]
      {
        chunks := chunks[i := chunks[i].(offset := chunks[i].start)];
      }
      currentChunkIndex := 0;
    }

    /** Allocates one element; `at` is where the system allocator would put a further chunk. None is the original's panic. */
    method Alloc(layout: Layout, at: nat) returns (handle: Option<Handle>)
      requires Valid() && layout.align > 0
      requires forall i :: 0 <= i < |chunks| ==> Disjoint(chunks[i].start, chunkSize, at, chunkSize)
      modifies this
      ensures Valid()
      ensures match handle
              case Some(h) => h.flag == flag && blocks == old(blocks) + [Block(h.address, layout)]
              case None => blocks == old(blocks)
      ensures flag == old(flag) && dropped == old(dropped)
      ensures layout.size + layout.align - 1 <= chunkSize ==> handle.Some?
      ensures var i := old(currentChunkIndex); var address := AlignUp(old(chunks)[i].offset, layout.align);
              address + layout.size <= old(chunks)[i].end ==>
                && handle == Some(Handle(address, flag)) && currentChunkIndex == i
                && chunks == old(chunks)[i := old(chunks)[i].(offset := address + layout.size)]
      ensures var i := old(currentChunkIndex);
              AlignUp(old(chunks)[i].offset, layout.align) + layout.size > old(chunks)[i].end ==>
                var start := if i + 1 < |old(chunks)| then old(chunks)[i + 1].start else at;
                var address := AlignUp(start, layout.align);
                var more := if i + 1 < |old(chunks)| then old(chunks) else old(chunks) + [Chunk(at, at + chunkSize, at)];
                && currentChunkIndex == i + 1
                && (if address + layout.size <= start + chunkSize
                    then handle == Some(Handle(address, flag)) && chunks == more[i + 1 := Chunk(start, start + chunkSize, address + layout.size)]
                    else handle.None? && chunks == more)
    {
      var r := chunks[currentChunkIndex].Allocate(layout);
      AlignUpIsFirst(chunks[currentChunkIndex].offset, layout.align);
      if r.None? {
        NextChunk(at);
        r := chunks[currentChunkIndex].Allocate(layout);
        AlignUpIsFirst(chunks[currentChunkIndex].offset, layout.align);
        if r.None? {
          return None;
        }
      }
      var address := Place(layout, r.value);
      handle := Some(Handle(address, flag));
    }

    /** Records what the current chunk allocated. */
    method Place(layout: Layout, placed: (nat, Chunk)) returns (address: nat)
      requires Valid() && layout.align > 0 && chunks[currentChunkIndex].Allocate(layout) == Some(placed)
      modifies this`chunks, this`blocks, this`elements
      ensures Valid() && address == AlignUp(old(chunks)[currentChunkIndex].offset, layout.align)
      ensures chunks == old(chunks)[currentChunkIndex := old(chunks)[currentChunkIndex].(offset := address + layout.size)]
      ensures blocks == old(blocks) + [Block(address, layout)]
    {
      AllocationKeepsLayout(chunks, currentChunkIndex, chunkSize, blocks, layout);
      address := placed.0;
      chunks := chunks[currentChunkIndex := placed.1];
      blocks := blocks + [Block(address, layout)];
      elements := elements + [address];
    }

    /** Moves on to the next chunk, which is empty, asking the system for one only if there is none. */
    method NextChunk(at: nat)
      requires Valid()
      requires forall i :: 0 <= i < |chunks| ==> Disjoint(chunks[i].start, chunkSize, at, chunkSize)
      modifies this`chunks, this`currentChunkIndex
      ensures Valid() && currentChunkIndex == old(currentChunkIndex) + 1
      ensures chunks == if currentChunkIndex < |old(chunks)| then old(chunks) else old(chunks) + [Chunk(at, at + chunkSize, at)]
      ensures var start := NextStart(old(chunks), old(currentChunkIndex), at);
              chunks[currentChunkIndex] == Chunk(start, start + chunkSize, start)
    {
      MovingOnKeepsLayout(chunks, currentChunkIndex, chunkSize, blocks, at);
      currentChunkIndex := currentChunkIndex + 1;
      if currentChunkIndex >= |chunks| {
        chunks := chunks + [Chunk(at, at + chunkSize, at)];
      }
    }
  }

  ghost function NextStart(chunks: seq<Chunk>, current: nat, at: nat): nat {
    if current + 1 < |chunks| then chunks[current + 1].start else at
  }

  lemma NextIsEmpty(chunks: seq<Chunk>, current: nat, chunkSize: nat, blocks: seq<Block>)
    requires WellLaidOut(chunks, current, chunkSize, blocks) && current + 1 < |chunks|
    ensures WellLaidOut(chunks, current + 1, chunkSize, blocks)
    ensures chunks[current + 1] == Chunk(chunks[current + 1].start, chunks[current + 1].start + chunkSize, chunks[current + 1].start)
  {
  }

  lemma MovingOnKeepsLayout(chunks: seq<Chunk>, current: nat, chunkSize: nat, blocks: seq<Block>, at: nat)
    requires WellLaidOut(chunks, current, chunkSize, blocks)
    requires forall i :: 0 <= i < |chunks| ==> Disjoint(chunks[i].start, chunkSize, at, chunkSize)
    ensures var chunks' := if current + 1 >= |chunks| then chunks + [Chunk(at, at + chunkSize, at)] else chunks;
            var start := NextStart(chunks, current, at);
            WellLaidOut(chunks', current + 1, chunkSize, blocks) && chunks'[current + 1] == Chunk(start, start + chunkSize, start)
  {
    if current + 1 >= |chunks| {
      AddedChunk(chunks, current, chunkSize, blocks, at);
      NextIsEmpty(chunks + [Chunk(at, at + chunkSize, at)], current, chunkSize, blocks);
    } else {
      NextIsEmpty(chunks, current, chunkSize, blocks);
    }
  }

  lemma AddedChunk(chunks: seq<Chunk>, current: nat, chunkSize: nat, blocks: seq<Block>, at: nat)
    requires WellLaidOut(chunks, current, chunkSize, blocks)
    requires forall i :: 0 <= i < |chunks| ==> Disjoint(chunks[i].start, chunkSize, at, chunkSize)
    ensures WellLaidOut(chunks + [Chunk(at, at + chunkSize, at)], current, chunkSize, blocks)
  {
    var chunks' := chunks + [Chunk(at, at + chunkSize, at)];
    forall k | 0 <= k < |blocks| ensures Placed(blocks[k], chunks') {
      assert Placed(blocks[k], chunks);
      var i :| 0 <= i < |chunks| && Inside(blocks[k], chunks[i]);
      assert Inside(blocks[k], chunks'[i]);
    }
    assert ChunksDisjoint(chunks');
  }
}
