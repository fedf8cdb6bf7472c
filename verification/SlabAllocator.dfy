/** `fixed_memory`: the slab allocator for one size class, over raw store blocks. */
module SlabAllocator {
  import opened Basics
  import opened Slab
  import opened SlabHeaders

  /** An address inside a store block. */
  datatype Pointer = Pointer(block: array<Byte>, offset: nat)

  ghost predicate SizeIs(blocks: seq<Block>, slot: Slot, stride: nat, size: nat) {
    var h := HeaderAt(blocks, slot, stride);
    |h| == HEADER_SIZE && ReadAllocSize(h) == size
  }

  /** Stores eight header bytes. */
  method PutHeader(block: array<Byte>, offset: nat, header: seq<Byte>)
    requires offset + HEADER_SIZE <= block.Length && |header| == HEADER_SIZE
    modifies block
    ensures block[..] == WithHeader(old(block[..]), offset, header)
  {
    var i := 0;
    while i < HEADER_SIZE
      invariant 0 <= i <= HEADER_SIZE
      invariant block[offset..offset + i] == header[..i]
      invariant forall j :: 0 <= j < block.Length && !(offset <= j < offset + i) ==> block[j] == old(block[j])
    {
      block[offset + i] := header[i];
      i := i + 1;
    }
    assert block[offset..offset + HEADER_SIZE] == header;
  }

  /** Writes the store index and the check bytes of a slot that is handed out. */
  method HandOut(block: array<Byte>, offset: nat, storeIndex: Byte)
    requires offset + HEADER_SIZE <= block.Length
    modifies block
    ensures block[..] == WithHeader(old(block[..]), offset, Handed(old(block[offset..offset + HEADER_SIZE]), storeIndex))
  {
    var header := block[offset..offset + HEADER_SIZE];
    PutHeader(block, offset, Handed(header, storeIndex));
  }

  /** One store of the threading loop. */
  method LinkSlot(block: array<Byte>, store: nat, ghost slot: nat, offset: nat, link: FreeInfo, allocSize: nat)
    requires allocSize >= 16 && offset == Offset(slot, allocSize) && offset + HEADER_SIZE <= block.Length
    requires link == if slot + 1 < Capacity(store) then FreeInfo(store, Offset(slot + 1, allocSize)) else NULL_INDEX
    requires link.storeIndex < 256 && link.memoryIndex < 0x100_0000_0000_0000
    requires forall j :: 1 <= j < slot ==> NewLink(block[..], store, j, allocSize)
    modifies block
    ensures forall j :: 1 <= j <= slot ==> NewLink(block[..], store, j, allocSize)
  {
    ghost var before := block[..];
    PutHeader(block, offset, FreeBytes(link));
    NewLinkStored(before, store, slot, link, allocSize);
    forall j | 1 <= j < slot ensures NewLink(block[..], store, j, allocSize) {
      NewLinkFrame(before, store, slot, FreeBytes(link), j, allocSize);
    }
  }

  lemma LoopGuard(slot: nat, store: nat, allocSize: nat)
    requires allocSize >= 16 && slot < Capacity(store)
    ensures Offset(slot, allocSize) < Offset(Capacity(store), allocSize) - allocSize <==> slot + 1 < Capacity(store)
    ensures Offset(slot, allocSize) <= Offset(Capacity(store), allocSize) - allocSize
  {
    if slot + 1 < Capacity(store) { SlotsApart(slot, Capacity(store) - 1, allocSize); }
  }

  /** The threading loop of `get_memory` over a new block, and the header of its
      first slot, which is handed out at once. */
  method ThreadBlock(block: array<Byte>, store: nat, allocSize: nat)
    requires store < 32 && allocSize >= 16
    requires block.Length == Offset(Capacity(store), allocSize) <= 0x1_0000_0000
    modifies block
    ensures NewBlock(block[..], store, allocSize)
  {
    var freeIndex := allocSize;
    var nextIndex := (freeIndex + allocSize) % 0x1_0000_0000;   // uint32_t
    var memorySizeOneLess := block.Length - allocSize;
    ghost var slot := 1;
    assert Offset(1, allocSize) == allocSize;
    LoopGuard(1, store, allocSize);
    while freeIndex < memorySizeOneLess
      invariant 1 <= slot < Capacity(store)
      invariant freeIndex == Offset(slot, allocSize) <= memorySizeOneLess
      invariant nextIndex == (freeIndex + allocSize) % 0x1_0000_0000
      invariant forall j :: 1 <= j < slot ==> NewLink(block[..], store, j, allocSize)
      decreases memorySizeOneLess - freeIndex
    {
      LoopGuard(slot, store, allocSize);
      LoopGuard(slot + 1, store, allocSize);
      LinkSlot(block, store, slot, freeIndex, FreeInfo(store, nextIndex), allocSize);
      freeIndex := nextIndex;
      nextIndex := (nextIndex + allocSize) % 0x1_0000_0000;
      slot := slot + 1;
    }
    LoopGuard(slot, store, allocSize);
    LinkSlot(block, store, slot, freeIndex, NULL_INDEX, allocSize);
    ghost var before := block[..];
    HandOut(block, 0, store);
    forall j | 1 <= j < Capacity(store) ensures NewLink(block[..], store, j, allocSize) {
      NewLinkFrame(before, store, 0, Handed(before[0..HEADER_SIZE], store), j, allocSize);
    }
  }

  method NewStore(store: nat, capacity: nat, allocSize: nat) returns (block: array<Byte>)
    requires allocSize >= 16 && capacity == Capacity(store) && capacity * allocSize <= 0x1_0000_0000
    ensures fresh(block) && NewBlock(block[..], store, allocSize)
  {
    OffsetIsProduct(capacity, allocSize);
    ByteBoundLimitsStores(store, allocSize);
    block := new Byte[capacity * allocSize];
    ThreadBlock(block, store, allocSize);
  }

  class FixedMemory {
    const allocSize: nat                     // slot stride, header included
    var freeStartIndex: FreeInfo
    var currentCapacity: nat
    var storeBlock: seq<array<Byte>>         // store_block[0 .. last_store_index]
    ghost var slab: State
    ghost var blocks: seq<Block>             // the bytes of the store blocks
    ghost var Repr: set<object>

    /** `blocks` shows the bytes of the store blocks, which are distinct arrays. */
    ghost predicate Mirrored()
      reads this, Repr
    {
      && this in Repr
      && |blocks| == |storeBlock|
      && (forall k :: 0 <= k < |storeBlock| ==> storeBlock[k] in Repr && storeBlock[k][..] == blocks[k])
      && (forall i, j :: 0 <= i < j < |storeBlock| ==> storeBlock[i] != storeBlock[j])
    }

    ghost predicate Valid()
      reads this, Repr
      ensures Valid() ==> this in Repr
    {
      && Mirrored()
      && Layout(blocks, freeStartIndex, slab, allocSize)
      && 2 * currentCapacity == Capacity(slab.stores)
    }

    /** The address of a slot. */
    ghost function Address(slot: Slot): Pointer
      reads this
      requires slot.store < |storeBlock|
    {
      Pointer(storeBlock[slot.store], Offset(slot.index, allocSize))
    }

    constructor (allocSize: nat)
      requires allocSize >= 8 && allocSize % 8 == 0
      ensures Valid() && slab == Initial() && fresh(Repr)
      ensures this.allocSize == allocSize + HEADER_SIZE
    {
      this.allocSize := allocSize + HEADER_SIZE;
      freeStartIndex := NULL_INDEX;
      currentCapacity := MIN_CAPACITY / 2;
      storeBlock, blocks := [], [];
      slab := Initial();
      Repr := {this};
    }

    /** Installs a threaded block and hands out its first slot. */
    method AppendStore(block: array<Byte>) returns (p: Pointer)
      requires Valid() && slab.list == []
      requires NewBlock(block[..], slab.stores, allocSize)
      requires block !in Repr
      modifies Repr
      ensures Valid() && slab == AfterGrow(old(slab))
      ensures storeBlock == old(storeBlock) + [block] && Repr == old(Repr) + {block}
      ensures p == Pointer(block, 0)
      ensures Untouched(old(blocks), blocks, old(slab.live), allocSize)
    {
      GrowKeepsLayout(blocks, freeStartIndex, slab, allocSize, block[..]);
      currentCapacity := currentCapacity * 2;
      freeStartIndex := FreeInfo(|storeBlock|, allocSize);
      storeBlock, blocks := storeBlock + [block], blocks + [block[..]];
      slab := AfterGrow(slab);
      Repr := Repr + {block};
      p := Pointer(block, 0);
    }

    /** The growing branch of `get_memory`. */
    method Grow() returns (p: Pointer)
      requires Valid() && slab.list == []
      requires 2 * currentCapacity * allocSize <= 0x1_0000_0000
      modifies Repr
      ensures Valid() && slab == AfterGet(old(slab)) && fresh(Repr - old(Repr))
      ensures |storeBlock| == |old(storeBlock)| + 1 && old(storeBlock) <= storeBlock
      ensures p == Address(Taken(old(slab)))
      ensures Untouched(old(blocks), blocks, old(slab.live), allocSize)
    {
      var block := NewStore(|storeBlock|, currentCapacity * 2, allocSize);
      p := AppendStore(block);
    }

    /** Stores a header in store block `store`. */
    method StoreHeader(store: nat, offset: nat, header: seq<Byte>)
      requires Mirrored() && store < |storeBlock| && offset + HEADER_SIZE <= |blocks[store]| && |header| == HEADER_SIZE
      modifies Repr
      ensures Mirrored() && blocks == old(blocks[store := WithHeader(blocks[store], offset, header)])
      ensures Repr == old(Repr) && storeBlock == old(storeBlock) && slab == old(slab)
      ensures freeStartIndex == old(freeStartIndex) && currentCapacity == old(currentCapacity)
    {
      PutHeader(storeBlock[store], offset, header);
      blocks := blocks[store := storeBlock[store][..]];
    }

    /** The branch of `get_memory` that pops the free list. */
    method Pop() returns (p: Pointer)
      requires Valid() && slab.list != []
      modifies Repr
      ensures Valid() && slab == AfterPop(old(slab)) && storeBlock == old(storeBlock) && Repr == old(Repr)
      ensures p == Address(Taken(old(slab)))
      ensures Untouched(old(blocks), blocks, old(slab.live), allocSize)
    {
      HeadIsListed(blocks, freeStartIndex, slab, allocSize);
      var FreeInfo(store, offset) := freeStartIndex;
      var block := storeBlock[store];
      ghost var header := Handed(block[offset..offset + HEADER_SIZE], store);
      PopKeepsLayout(blocks, freeStartIndex, slab, allocSize, header);
      freeStartIndex := ReadFree(block[offset..offset + HEADER_SIZE]);
      StoreHeader(store, offset, Handed(block[offset..offset + HEADER_SIZE], store));
      slab := AfterPop(slab);
      p := Pointer(block, offset);
    }

    method GetMemory() returns (p: Pointer)
      requires Valid()
      requires slab.list == [] ==> 2 * currentCapacity * allocSize <= 0x1_0000_0000
      modifies Repr
      ensures Valid() && slab == AfterGet(old(slab)) && fresh(Repr - old(Repr))
      ensures old(storeBlock) <= storeBlock
      ensures Taken(old(slab)) !in old(slab.live) && p == Address(Taken(old(slab)))
      ensures Untouched(old(blocks), blocks, old(slab.live), allocSize)
    {
      TakenIsFresh(slab);
      LinkFits(blocks, slab, allocSize, 0);
      if freeStartIndex == NULL_INDEX {
        p := Grow();
      } else {
        p := Pop();
      }
    }

    method Free(header: Pointer, ghost slot: Slot)
      requires Valid() && slot in slab.live && slot.store < |storeBlock| && header == Address(slot)
      modifies Repr
      ensures Valid() && slab == AfterFree(old(slab), slot) && storeBlock == old(storeBlock) && Repr == old(Repr)
      ensures Untouched(old(blocks), blocks, old(slab.live) - {slot}, allocSize)
    {
      LiveIsHanded(blocks, freeStartIndex, slab, allocSize, slot);
      FreeKeepsLayout(blocks, freeStartIndex, slab, allocSize, slot);
      var Pointer(block, offset) := header;
      var allocInfo := block[offset..offset + HEADER_SIZE];
      var store := ReadStoreIndex(allocInfo);
      assert offset % allocSize == 0 && ChecksPass(allocInfo) && storeBlock[store] == block;
      StoreHeader(store, offset, FreeBytes(freeStartIndex));
      freeStartIndex := FreeInfo(store, offset);
      slab := AfterFree(slab, slot);
    }

    /** Stores `alloc_size` in the header of a live slot. */
    method PutSize(header: Pointer, size: nat, ghost slot: Slot)
      requires Valid() && slot in slab.live && slot.store < |storeBlock| && header == Address(slot)
      requires size < 0x1_0000
      modifies Repr
      ensures Valid() && slab == old(slab) && storeBlock == old(storeBlock) && Repr == old(Repr)
      ensures Untouched(old(blocks), blocks, slab.live - {slot}, allocSize)
      ensures SizeIs(blocks, slot, allocSize, size)
    {
      LiveIsHanded(blocks, freeStartIndex, slab, allocSize, slot);
      var Pointer(block, offset) := header;
      var sized := WithSize(block[offset..offset + HEADER_SIZE], size);
      SizeKeepsLayout(blocks, freeStartIndex, slab, allocSize, slot, sized);
      StoreHeader(ReadStoreIndex(sized), offset, sized);
    }
  }

  /** What a caller does with the memory it was given: stores a byte of the payload. */
  method WritePayload(ghost m: FixedMemory, header: Pointer, i: nat, v: Byte, ghost slot: Slot)
    requires m.Valid() && slot in m.slab.live && slot.store < |m.storeBlock| && header == m.Address(slot)
    requires HEADER_SIZE + i < m.allocSize
    modifies m.Repr
    ensures m.Valid() && m.slab == old(m.slab) && m.storeBlock == old(m.storeBlock) && m.Repr == old(m.Repr)
    ensures Untouched(old(m.blocks), m.blocks, m.slab.live - {slot}, m.allocSize)
    ensures HeaderAt(m.blocks, slot, m.allocSize) == HeaderAt(old(m.blocks), slot, m.allocSize)
    ensures i < |PayloadAt(old(m.blocks), slot, m.allocSize)|
    ensures PayloadAt(m.blocks, slot, m.allocSize) == PayloadAt(old(m.blocks), slot, m.allocSize)[i := v]
  {
    PayloadWriteKeepsLayout(m.blocks, m.freeStartIndex, m.slab, m.allocSize, slot, i, v);
    header.block[header.offset + HEADER_SIZE + i] := v;
    m.blocks := PayloadWritten(m.blocks, slot, m.allocSize, i, v);
  }
}
