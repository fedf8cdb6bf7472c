/** `memory`: 128 size classes of 8, 16, ..., 1024 bytes. An allocation is routed by its
    size, a free by the size found in the header in front of the payload. */
module SizeClasses {
  import opened Basics
  import opened Slab
  import opened SlabHeaders
  import opened SlabAllocator

  const MAX_ALLOCATION_SIZE: nat := 1024
  const MAX_CHUNK: nat := 128

  /** `(alloc_size + 7) & ~7` */
  function RoundUp(size: nat): (r: nat)
    ensures size <= r < size + 8 && r % 8 == 0
  {
    (size + 7) / 8 * 8
  }

  function ChunkIndex(size: nat): (c: nat)
    requires 1 <= size <= MAX_ALLOCATION_SIZE
    ensures c < MAX_CHUNK && ChunkSize(c) == RoundUp(size)
  {
    RoundUp(size) / 8 - 1
  }

  function ChunkSize(chunk: nat): nat { 8 * (chunk + 1) }

  /** A sound allocator in which every live header names the size class. */
  ghost predicate Tagged(m: FixedMemory, size: nat)
    reads m, m.Repr
  {
    && m.Valid()
    && m.allocSize == size + HEADER_SIZE
    && SizesAre(m.blocks, m.slab.live, m.allocSize, size)
  }

  ghost predicate SizesAre(blocks: seq<Block>, live: set<Slot>, stride: nat, size: nat) {
    forall slot :: slot in live ==> SizeIs(blocks, slot, stride, size)
  }

  lemma UntouchedSizes(before: seq<Block>, after: seq<Block>, live: set<Slot>, stride: nat, size: nat)
    requires Untouched(before, after, live, stride) && SizesAre(before, live, stride, size)
    ensures SizesAre(after, live, stride, size)
  {
    forall slot | slot in live ensures SizeIs(after, slot, stride, size) {
      assert SizeIs(before, slot, stride, size);
    }
  }

  lemma OthersLive(s: State)
    requires Taken(s) !in s.live
    ensures AfterGet(s).live - {Taken(s)} == s.live
  {
  }

  /** `get_memory` of a size class, and the size written into the header. */
  method TakeTagged(m: FixedMemory, size: nat) returns (header: Pointer)
    requires Tagged(m, size) && size < 0x1_0000
    requires m.slab.list == [] ==> 2 * m.currentCapacity * m.allocSize <= 0x1_0000_0000
    modifies m.Repr
    ensures Tagged(m, size) && m.slab == AfterGet(old(m.slab)) && fresh(m.Repr - old(m.Repr))
    ensures Taken(old(m.slab)) !in old(m.slab.live) && header == m.Address(Taken(old(m.slab)))
    ensures old(m.storeBlock) <= m.storeBlock && Untouched(old(m.blocks), m.blocks, old(m.slab.live), m.allocSize)
  {
    ghost var slot, live, before := Taken(m.slab), m.slab.live, m.blocks;
    header := m.GetMemory();
    UntouchedSizes(before, m.blocks, live, m.allocSize, size);
    ghost var between := m.blocks;
    OthersLive(old(m.slab));
    TagTaken(m, size, header, slot);
    UntouchedTwice(before, between, m.blocks, live, m.allocSize);
  }

  method TagTaken(m: FixedMemory, size: nat, header: Pointer, ghost slot: Slot)
    requires m.Valid() && m.allocSize == size + HEADER_SIZE && size < 0x1_0000
    requires slot in m.slab.live && slot.store < |m.storeBlock| && header == m.Address(slot)
    requires SizesAre(m.blocks, m.slab.live - {slot}, m.allocSize, size)
    modifies m.Repr
    ensures Tagged(m, size) && m.slab == old(m.slab) && m.storeBlock == old(m.storeBlock) && m.Repr == old(m.Repr)
    ensures Untouched(old(m.blocks), m.blocks, m.slab.live - {slot}, m.allocSize)
  {
    ghost var before := m.blocks;
    m.PutSize(header, size, slot);
    UntouchedSizes(before, m.blocks, m.slab.live - {slot}, m.allocSize, size);
  }

  /** The size class named by the header of a live slot. */
  method ReadChunk(ghost m: FixedMemory, ghost size: nat, header: Pointer, ghost slot: Slot) returns (chunk: int)
    requires Tagged(m, size) && slot in m.slab.live && slot.store < |m.storeBlock| && header == m.Address(slot)
    ensures chunk == size / 8 - 1
  {
    LiveIsHanded(m.blocks, m.freeStartIndex, m.slab, m.allocSize, slot);
    assert SizeIs(m.blocks, slot, m.allocSize, size);
    chunk := ReadAllocSize(header.block[header.offset..header.offset + HEADER_SIZE]) / 8 - 1;
  }

  method ReturnTagged(m: FixedMemory, ghost size: nat, header: Pointer, ghost slot: Slot)
    requires Tagged(m, size) && slot in m.slab.live && slot.store < |m.storeBlock| && header == m.Address(slot)
    modifies m.Repr
    ensures Tagged(m, size) && m.slab == AfterFree(old(m.slab), slot) && m.storeBlock == old(m.storeBlock) && m.Repr == old(m.Repr)
    ensures Untouched(old(m.blocks), m.blocks, old(m.slab.live) - {slot}, m.allocSize)
  {
    ghost var live, before := m.slab.live, m.blocks;
    m.Free(header, slot);
    UntouchedSizes(before, m.blocks, live - {slot}, m.allocSize, size);
  }

  /** A caller stores a byte of its payload, which leaves the header alone. */
  method WriteTagged(ghost m: FixedMemory, ghost size: nat, header: Pointer, i: nat, v: Byte, ghost slot: Slot)
    requires Tagged(m, size) && slot in m.slab.live && slot.store < |m.storeBlock| && header == m.Address(slot)
    requires i < size
    modifies m.Repr
    ensures Tagged(m, size) && m.slab == old(m.slab) && m.storeBlock == old(m.storeBlock) && m.Repr == old(m.Repr)
    ensures Untouched(old(m.blocks), m.blocks, m.slab.live - {slot}, m.allocSize)
    ensures i < |PayloadAt(old(m.blocks), slot, m.allocSize)|
    ensures PayloadAt(m.blocks, slot, m.allocSize) == PayloadAt(old(m.blocks), slot, m.allocSize)[i := v]
  {
    ghost var live, before := m.slab.live, m.blocks;
    assert SizeIs(before, slot, m.allocSize, size);
    SlabAllocator.WritePayload(m, header, i, v, slot);
    UntouchedSizes(before, m.blocks, live - {slot}, m.allocSize, size);
    assert SizeIs(m.blocks, slot, m.allocSize, size);
  }

  class Memory {
    const memArray: seq<FixedMemory>

    ghost predicate ChunkValid(c: nat)
      requires c < |memArray|
      reads memArray[c], memArray[c].Repr
    {
      Tagged(memArray[c], ChunkSize(c))
    }

    /** Two size classes share no object. */
    ghost predicate Apart(c: nat, d: nat)
      requires c < |memArray| && d < |memArray|
      reads memArray[c], memArray[d]
    {
      memArray[c].Repr !! memArray[d].Repr
    }

    ghost predicate Valid()
      reads memArray, set c, o | 0 <= c < |memArray| && o in memArray[c].Repr :: o
    {
      && |memArray| == MAX_CHUNK
      && (forall c :: 0 <= c < MAX_CHUNK ==> ChunkValid(c))
      && (forall c, d :: 0 <= c < d < MAX_CHUNK ==> Apart(c, d))
    }

    /** The slot behind a payload pointer of size class `c`. */
    ghost predicate IsPayload(p: Pointer, c: nat, slot: Slot)
      requires c < |memArray|
      reads memArray
    {
      var m := memArray[c];
      && slot.store < |m.storeBlock|
      && p == Pointer(m.storeBlock[slot.store], Offset(slot.index, m.allocSize) + HEADER_SIZE)
    }

    /** Size class `d` still has these store blocks, and the slots in `live` the headers and
        payloads they have in `blocks`. */
    ghost predicate Keeps(d: nat, stores: seq<array<Byte>>, blocks: seq<Block>, live: set<Slot>)
      requires d < |memArray|
      reads memArray[d]
    {
      stores <= memArray[d].storeBlock && Untouched(blocks, memArray[d].blocks, live, memArray[d].allocSize)
    }

    /** The bytes in memory behind a payload pointer are the payload of its slot. */
    lemma PayloadBytes(p: Pointer, c: nat, slot: Slot)
      requires Valid() && c < MAX_CHUNK && slot in memArray[c].slab.live && IsPayload(p, c, slot)
      ensures p.offset + ChunkSize(c) <= p.block.Length
      ensures p.block[p.offset..p.offset + ChunkSize(c)] == PayloadAt(memArray[c].blocks, slot, memArray[c].allocSize)
    {
      assert ChunkValid(c);
      var m := memArray[c];
      LiveIsHanded(m.blocks, m.freeStartIndex, m.slab, m.allocSize, slot);
    }

    constructor ()
      ensures Valid() && forall c :: 0 <= c < MAX_CHUNK ==> memArray[c].slab == Initial()
    {
      var classes: seq<FixedMemory> := [];
      while |classes| < MAX_CHUNK
        invariant |classes| <= MAX_CHUNK
        invariant forall c :: 0 <= c < |classes| ==> fresh(classes[c]) && Tagged(classes[c], ChunkSize(c)) && classes[c].slab == Initial()
        invariant forall c :: 0 <= c < |classes| ==> fresh(classes[c].Repr)
        invariant forall c, d :: 0 <= c < d < |classes| ==> classes[c].Repr !! classes[d].Repr
      {
        var m := new FixedMemory(ChunkSize(|classes|));
        classes := classes + [m];
      }
      memArray := classes;
    }

    /** `get_memory` of one of the size classes, which leaves the others alone. */
    method TakeFrom(chunk: nat) returns (header: Pointer)
      requires Valid() && chunk < MAX_CHUNK
      requires var m := memArray[chunk]; m.slab.list == [] ==> 2 * m.currentCapacity * m.allocSize <= 0x1_0000_0000
      modifies memArray[chunk].Repr
      ensures Valid() && fresh(memArray[chunk].Repr - old(memArray[chunk].Repr))
      ensures memArray[chunk].slab == AfterGet(old(memArray[chunk].slab))
      ensures Taken(old(memArray[chunk].slab)) !in old(memArray[chunk].slab.live)
      ensures Taken(old(memArray[chunk].slab)).store < |memArray[chunk].storeBlock|
      ensures header == memArray[chunk].Address(Taken(old(memArray[chunk].slab)))
      ensures Keeps(chunk, old(memArray[chunk].storeBlock), old(memArray[chunk].blocks), old(memArray[chunk].slab.live))
      ensures forall d :: 0 <= d < MAX_CHUNK && d != chunk ==> unchanged(memArray[d])
    {
      assert ChunkValid(chunk);
      header := TakeTagged(memArray[chunk], ChunkSize(chunk));
      forall d | 0 <= d < MAX_CHUNK && d != chunk
        ensures ChunkValid(d) && unchanged(memArray[d]) && memArray[d].Repr !! memArray[chunk].Repr
      {
        assert old(ChunkValid(d)) && old(if chunk < d then Apart(chunk, d) else Apart(d, chunk));
      }
      forall i, d | 0 <= i < d < MAX_CHUNK ensures Apart(i, d) {
        if i != chunk && d != chunk {
          assert old(Apart(i, d));
        }
      }
    }

    /** `memory::get_memory`, for a rounded size. */
    method GetMemory(newSize: nat, ghost c: nat) returns (p: Pointer)
      requires Valid() && c < MAX_CHUNK && newSize == ChunkSize(c)
      requires memArray[c].slab.list == [] ==> 2 * memArray[c].currentCapacity * memArray[c].allocSize <= 0x1_0000_0000
      modifies memArray[c].Repr
      ensures Valid() && fresh(memArray[c].Repr - old(memArray[c].Repr))
      ensures memArray[c].slab == AfterGet(old(memArray[c].slab))
      ensures Taken(old(memArray[c].slab)) !in old(memArray[c].slab.live)
      ensures IsPayload(p, c, Taken(old(memArray[c].slab)))
      ensures Keeps(c, old(memArray[c].storeBlock), old(memArray[c].blocks), old(memArray[c].slab.live))
      ensures forall d :: 0 <= d < MAX_CHUNK && d != c ==> unchanged(memArray[d])
    {
      var chunk := newSize / 8 - 1;
      assert chunk == c;
      var header := TakeFrom(chunk);
      p := Pointer(header.block, header.offset + HEADER_SIZE);
    }

    /** Allocates `size` bytes and returns the payload address. No payload that is in use,
        of any size class, is handed out again, moved or changed. */
    method Alloc(size: nat) returns (p: Pointer)
      requires Valid() && 1 <= size <= MAX_ALLOCATION_SIZE
      requires var m := memArray[ChunkIndex(size)];
        m.slab.list == [] ==> 2 * m.currentCapacity * m.allocSize <= 0x1_0000_0000
      modifies memArray[ChunkIndex(size)].Repr
      ensures Valid() && fresh(memArray[ChunkIndex(size)].Repr - old(memArray[ChunkIndex(size)].Repr))
      ensures memArray[ChunkIndex(size)].slab == AfterGet(old(memArray[ChunkIndex(size)].slab))
      ensures Taken(old(memArray[ChunkIndex(size)].slab)) !in old(memArray[ChunkIndex(size)].slab.live)
      ensures IsPayload(p, ChunkIndex(size), Taken(old(memArray[ChunkIndex(size)].slab)))
      ensures Keeps(ChunkIndex(size), old(memArray[ChunkIndex(size)].storeBlock), old(memArray[ChunkIndex(size)].blocks), old(memArray[ChunkIndex(size)].slab.live))
      ensures forall d :: 0 <= d < MAX_CHUNK && d != ChunkIndex(size) ==> unchanged(memArray[d])
    {
      p := GetMemory((size + 7) / 8 * 8, ChunkIndex(size));
    }

    /** Frees a payload: the header in front of it, and not the caller, says which size
        class it goes back to, and that is the class it came from. */
    method Free(value: Pointer, ghost c: nat, ghost slot: Slot)
      requires Valid() && c < MAX_CHUNK && slot in memArray[c].slab.live && IsPayload(value, c, slot)
      modifies memArray[c].Repr
      ensures Valid() && memArray[c].Repr == old(memArray[c].Repr)
      ensures memArray[c].slab == AfterFree(old(memArray[c].slab), slot)
      ensures Keeps(c, old(memArray[c].storeBlock), old(memArray[c].blocks), old(memArray[c].slab.live) - {slot})
      ensures forall d :: 0 <= d < MAX_CHUNK && d != c ==> unchanged(memArray[d])
    {
      var header := Pointer(value.block, value.offset - HEADER_SIZE);
      assert ChunkValid(c);
      var chunk := ReadChunk(memArray[c], ChunkSize(c), header, slot);
      assert chunk == c;
      ReturnTagged(memArray[chunk], ChunkSize(c), header, slot);
      forall d | 0 <= d < MAX_CHUNK && d != chunk ensures ChunkValid(d) && unchanged(memArray[d]) {
        assert old(ChunkValid(d)) && old(if chunk < d then Apart(chunk, d) else Apart(d, chunk));
      }
      assert Valid() by {
        forall i, d | 0 <= i < d < MAX_CHUNK ensures Apart(i, d) {
          assert old(Apart(i, d));
        }
      }
    }

    /** A caller stores byte `i` of a payload it was given. */
    method WritePayload(value: Pointer, i: nat, v: Byte, ghost c: nat, ghost slot: Slot)
      requires Valid() && c < MAX_CHUNK && slot in memArray[c].slab.live && IsPayload(value, c, slot)
      requires i < ChunkSize(c)
      modifies memArray[c].Repr
      ensures Valid() && memArray[c].Repr == old(memArray[c].Repr) && IsPayload(value, c, slot)
      ensures i < |PayloadAt(old(memArray[c].blocks), slot, memArray[c].allocSize)|
      ensures PayloadAt(memArray[c].blocks, slot, memArray[c].allocSize)
           == PayloadAt(old(memArray[c].blocks), slot, memArray[c].allocSize)[i := v]
      ensures memArray[c].slab == old(memArray[c].slab)
      ensures Keeps(c, old(memArray[c].storeBlock), old(memArray[c].blocks), old(memArray[c].slab.live) - {slot})
      ensures forall d :: 0 <= d < MAX_CHUNK && d != c ==> unchanged(memArray[d])
    {
      var header := Pointer(value.block, value.offset - HEADER_SIZE);
      assert ChunkValid(c);
      WriteTagged(memArray[c], ChunkSize(c), header, i, v, slot);
      forall d | 0 <= d < MAX_CHUNK && d != c ensures ChunkValid(d) && unchanged(memArray[d]) {
        assert old(ChunkValid(d)) && old(if c < d then Apart(c, d) else Apart(d, c));
      }
      assert Valid() by {
        forall k, d | 0 <= k < d < MAX_CHUNK ensures Apart(k, d) {
          assert old(Apart(k, d));
        }
      }
    }
  }
}
