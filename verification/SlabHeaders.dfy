/** The eight header bytes at the start of every slot, seen in two ways: as
    `fixed_memory_free_info` while the slot is listed and as
    `fixed_memory_alloc_info` while it is live. Little-endian, packed. */
module SlabHeaders {
  import opened Basics
  import opened Slab

  const HEADER_SIZE: nat := 8

  function FromLittle(bytes: seq<Byte>): (v: nat)
    ensures v < Pow2(8 * |bytes|)
  {
    if bytes == [] then 0 else
      Pow2Step(8 * (|bytes| - 1));
      bytes[0] + 256 * FromLittle(bytes[1..])
  }

  function ToLittle(v: nat, size: nat): (bytes: seq<Byte>)
    ensures |bytes| == size
  {
    if size == 0 then [] else [v % 256] + ToLittle(v / 256, size - 1)
  }

  lemma {:induction false} LittleRoundTrip(v: nat, size: nat)
    requires v < Pow2(8 * size)
    ensures FromLittle(ToLittle(v, size)) == v
  {
    if size == 0 {
    } else {
      Pow2Step(8 * (size - 1));
      LittleRoundTrip(v / 256, size - 1);
    }
  }

  /** `fixed_memory_free_info`: a store index and a byte offset, kept in bit fields of
      8 and 56 bits. */
  datatype FreeInfo = FreeInfo(storeIndex: nat, memoryIndex: nat)

  const NULL_INDEX := FreeInfo(0xff, 0xff_ffff_ffff_ffff)

  function FreeBytes(info: FreeInfo): (bytes: seq<Byte>)
    ensures |bytes| == HEADER_SIZE
  {
    [info.storeIndex % 256] + ToLittle(info.memoryIndex, 7)
  }

  function ReadFree(header: seq<Byte>): FreeInfo
    requires |header| == HEADER_SIZE
  {
    FreeInfo(header[0], FromLittle(header[1..]))
  }

  lemma FreeRoundTrip(info: FreeInfo)
    requires info.storeIndex < 256 && info.memoryIndex < 0x100_0000_0000_0000
    ensures ReadFree(FreeBytes(info)) == info
  {
    assert Pow2(56) == 0x100_0000_0000_0000 by { Pow2Values(); }
    LittleRoundTrip(info.memoryIndex, 7);
    assert FreeBytes(info)[1..] == ToLittle(info.memoryIndex, 7);
  }

  // `fixed_memory_alloc_info`: 16-bit size, 8-bit store, and the check bytes 0xaa and
  // 0xaaaaeeaa that the debug build writes and asserts.

  const CHECK_BYTES: seq<Byte> := [0xaa, 0xaa, 0xee, 0xaa, 0xaa]

  function ReadAllocSize(header: seq<Byte>): nat
    requires |header| == HEADER_SIZE
  {
    FromLittle(header[..2])
  }

  function ReadStoreIndex(header: seq<Byte>): Byte
    requires |header| == HEADER_SIZE
  {
    header[2]
  }

  predicate ChecksPass(header: seq<Byte>)
    requires |header| == HEADER_SIZE
  {
    header[3..] == CHECK_BYTES
  }

  lemma AllocRoundTrip(allocSize: nat)
    requires allocSize < 0x1_0000
    ensures FromLittle(ToLittle(allocSize, 2)) == allocSize
  {
    assert Pow2(16) == 0x1_0000 by { Pow2Values(); }
    LittleRoundTrip(allocSize, 2);
  }

  /** The header `get_memory` leaves: store index and check bytes; the size is written later. */
  function Handed(header: seq<Byte>, storeIndex: Byte): (h: seq<Byte>)
    requires |header| == HEADER_SIZE
    ensures |h| == HEADER_SIZE && ReadStoreIndex(h) == storeIndex && ChecksPass(h)
  {
    var h := header[..2] + [storeIndex] + CHECK_BYTES;
    assert h[3..] == CHECK_BYTES;
    h
  }

  /** The header after `memory::get_memory` has written the size. */
  function WithSize(header: seq<Byte>, allocSize: nat): (h: seq<Byte>)
    requires |header| == HEADER_SIZE
    ensures |h| == HEADER_SIZE && ReadStoreIndex(h) == ReadStoreIndex(header)
    ensures ChecksPass(header) ==> ChecksPass(h)
    ensures allocSize < 0x1_0000 ==> ReadAllocSize(h) == allocSize
  {
    var h := ToLittle(allocSize, 2) + header[2..];
    assert h[3..] == header[3..] && h[..2] == ToLittle(allocSize, 2);
    if allocSize < 0x1_0000 then AllocRoundTrip(allocSize); h else h
  }

  lemma {:induction false} LittleByte(v: nat, size: nat, k: nat)
    requires k < size
    ensures ToLittle(v, size)[k] == v / Pow2(8 * k) % 256
  {
    if k == 0 {
    } else {
      LittleByte(v / 256, size - 1, k - 1);
      Pow2Step(8 * (k - 1));
      DivideTwice(v, Pow2(8 * (k - 1)));
    }
  }

  lemma DivideTwice(v: nat, p: nat)
    requires p > 0
    ensures v / 256 / p == v / (256 * p)
  {
    var q, r := v / 256 / p, v / 256 % p;
    assert v == 256 * (v / 256) + v % 256 && v / 256 == p * q + r;
    assert 256 * (p * q) == q * (256 * p);
    DivisionIs(q, 256 * p, 256 * r + v % 256);
  }

  /** A list link in memory: the block number, and the offset with its low byte first. */
  lemma FreeHeaderBytes(info: FreeInfo, k: nat)
    requires info.storeIndex < 256 && k < 7
    ensures FreeBytes(info)[0] == info.storeIndex
    ensures FreeBytes(info)[1 + k] == info.memoryIndex / Pow2(8 * k) % 256
  {
    LittleByte(info.memoryIndex, 7, k);
  }

  /** A live header in memory: the size with its low byte first, the block number, and the
      check bytes. */
  lemma AllocHeaderBytes(header: seq<Byte>, storeIndex: Byte, allocSize: nat)
    requires |header| == HEADER_SIZE && allocSize < 0x1_0000
    ensures WithSize(Handed(header, storeIndex), allocSize)
         == [allocSize % 256, allocSize / 256, storeIndex, 0xaa, 0xaa, 0xee, 0xaa, 0xaa]
  {
    assert ToLittle(allocSize, 2) == [allocSize % 256, allocSize / 256] by {
      assert ToLittle(allocSize / 256, 1) == [allocSize / 256] + ToLittle(allocSize / 256 / 256, 0);
    }
  }

  // ----- store blocks as byte sequences -----

  type Block = seq<Byte>

  /** Where slot `index` starts. */
  function Offset(index: nat, stride: nat): nat {
    if index == 0 then 0 else Offset(index - 1, stride) + stride
  }

  lemma {:induction false} OffsetIsProduct(index: nat, stride: nat)
    ensures Offset(index, stride) == index * stride
  {
    if index == 0 {
    } else {
      OffsetIsProduct(index - 1, stride);
      assert (index - 1) * stride + stride == index * stride;
    }
  }

  /** Two slots of a block never overlap. */
  lemma {:induction false} SlotsApart(i: nat, j: nat, stride: nat)
    requires i < j
    ensures Offset(i, stride) + stride <= Offset(j, stride)
  {
    if i + 1 == j {
    } else {
      SlotsApart(i, j - 1, stride);
    }
  }

  /** The header of a slot, or no bytes when the slot is outside the blocks. */
  function HeaderAt(blocks: seq<Block>, slot: Slot, stride: nat): (h: seq<Byte>)
    ensures |h| == 0 || |h| == HEADER_SIZE
  {
    var offset := Offset(slot.index, stride);
    if slot.store < |blocks| && offset + HEADER_SIZE <= |blocks[slot.store]|
    then blocks[slot.store][offset..offset + HEADER_SIZE]
    else []
  }

  /** The payload of a slot: what the caller of `get_memory` may use. */
  function PayloadAt(blocks: seq<Block>, slot: Slot, stride: nat): seq<Byte> {
    var offset := Offset(slot.index, stride);
    if slot.store < |blocks| && offset + HEADER_SIZE <= offset + stride <= |blocks[slot.store]|
    then blocks[slot.store][offset + HEADER_SIZE..offset + stride]
    else []
  }

  /** The block after a header has been stored over eight bytes. */
  function WithHeader(block: Block, offset: nat, header: seq<Byte>): (b: Block)
    requires offset + HEADER_SIZE <= |block| && |header| == HEADER_SIZE
    ensures |b| == |block|
    ensures b[offset..offset + HEADER_SIZE] == header
    ensures forall i :: 0 <= i < |b| && !(offset <= i < offset + HEADER_SIZE) ==> b[i] == block[i]
  {
    block[..offset] + header + block[offset + HEADER_SIZE..]
  }

  // ----- the layout invariant -----

  ghost predicate BlockSized(block: Block, store: nat, stride: nat) {
    |block| == Offset(Capacity(store), stride) <= 0x1_0000_0000
  }

  ghost predicate Shaped(blocks: seq<Block>, s: State, stride: nat) {
    && stride >= 16
    && |blocks| == s.stores
    && (forall k :: 0 <= k < |blocks| ==> BlockSized(blocks[k], k, stride))
    && s.stores <= 32
  }

  /** What the list node before position `i` points to. */
  function Link(list: seq<Slot>, i: nat, stride: nat): FreeInfo {
    if i < |list| then FreeInfo(list[i].store, Offset(list[i].index, stride)) else NULL_INDEX
  }

  ghost predicate ListedAt(blocks: seq<Block>, list: seq<Slot>, i: nat, stride: nat)
    requires i < |list|
  {
    var h := HeaderAt(blocks, list[i], stride);
    |h| == HEADER_SIZE && ReadFree(h) == Link(list, i + 1, stride)
  }

  /** The free list is threaded through the headers of the listed slots. */
  ghost predicate Threaded(blocks: seq<Block>, head: FreeInfo, list: seq<Slot>, stride: nat) {
    && head == Link(list, 0, stride)
    && (forall i :: 0 <= i < |list| ==> ListedAt(blocks, list, i, stride))
  }

  ghost predicate LiveAt(blocks: seq<Block>, slot: Slot, stride: nat) {
    var h := HeaderAt(blocks, slot, stride);
    |h| == HEADER_SIZE && ReadStoreIndex(h) == slot.store && ChecksPass(h)
  }

  ghost predicate LiveHeaders(blocks: seq<Block>, live: set<Slot>, stride: nat) {
    forall slot :: slot in live ==> LiveAt(blocks, slot, stride)
  }

  ghost predicate Layout(blocks: seq<Block>, head: FreeInfo, s: State, stride: nat) {
    && Shaped(blocks, s, stride)
    && Partition(s)
    && Sized(s)
    && Threaded(blocks, head, s.list, stride)
    && LiveHeaders(blocks, s.live, stride)
  }

  lemma SlotInBlock(blocks: seq<Block>, s: State, stride: nat, slot: Slot)
    requires Shaped(blocks, s, stride) && Exists(s, slot)
    ensures Offset(slot.index, stride) + stride <= |blocks[slot.store]|
  {
    SlotsApart(slot.index, Capacity(slot.store), stride);
  }

  /** Storing a header changes that header, no other header, and no payload. */
  lemma HeaderFrame(blocks: seq<Block>, s: State, stride: nat, slot: Slot, header: seq<Byte>, other: Slot)
    requires Shaped(blocks, s, stride) && Exists(s, slot) && Exists(s, other) && |header| == HEADER_SIZE
    ensures Offset(slot.index, stride) + HEADER_SIZE <= |blocks[slot.store]|
    ensures var blocks' := blocks[slot.store := WithHeader(blocks[slot.store], Offset(slot.index, stride), header)];
      && HeaderAt(blocks', other, stride) == (if other == slot then header else HeaderAt(blocks, other, stride))
      && PayloadAt(blocks', other, stride) == PayloadAt(blocks, other, stride)
  {
    SlotInBlock(blocks, s, stride, slot);
    SlotInBlock(blocks, s, stride, other);
    if other.store == slot.store {
      if other.index < slot.index { SlotsApart(other.index, slot.index, stride); }
      if slot.index < other.index { SlotsApart(slot.index, other.index, stride); }
    }
  }

  /** Writes of the callers into live payloads leave the layout intact. */
  lemma PayloadWritesAreHarmless(blocks: seq<Block>, blocks': seq<Block>, head: FreeInfo, s: State, stride: nat)
    requires Layout(blocks, head, s, stride) && Shaped(blocks', s, stride)
    requires forall slot :: Exists(s, slot) ==> HeaderAt(blocks', slot, stride) == HeaderAt(blocks, slot, stride)
    ensures Layout(blocks', head, s, stride)
  {
    forall i | 0 <= i < |s.list| ensures ListedAt(blocks', s.list, i, stride) {
      assert InOnePlace(s, s.list[i]);
      assert ListedAt(blocks, s.list, i, stride);
    }
    forall slot | slot in s.live ensures LiveAt(blocks', slot, stride) {
      assert InOnePlace(s, slot);
      assert LiveAt(blocks, slot, stride);
    }
  }

  /** The blocks after byte `i` of a slot's payload has been stored. */
  function PayloadWritten(blocks: seq<Block>, slot: Slot, stride: nat, i: nat, v: Byte): (r: seq<Block>)
    requires slot.store < |blocks| && Offset(slot.index, stride) + HEADER_SIZE + i < |blocks[slot.store]|
    ensures |r| == |blocks|
  {
    var block: Block := blocks[slot.store][Offset(slot.index, stride) + HEADER_SIZE + i := v];
    blocks[slot.store := block]
  }

  /** Storing a byte into a payload changes that byte, no header, and no other payload. */
  lemma PayloadFrame(blocks: seq<Block>, s: State, stride: nat, slot: Slot, i: nat, v: Byte, other: Slot)
    requires Shaped(blocks, s, stride) && Exists(s, slot) && Exists(s, other) && HEADER_SIZE + i < stride
    ensures Offset(slot.index, stride) + stride <= |blocks[slot.store]|
    ensures |PayloadAt(blocks, slot, stride)| == stride - HEADER_SIZE
    ensures var after := PayloadWritten(blocks, slot, stride, i, v); var payload := PayloadAt(blocks, other, stride);
      && HeaderAt(after, other, stride) == HeaderAt(blocks, other, stride)
      && PayloadAt(after, other, stride) == if other == slot then payload[i := v] else payload
  {
    SlotInBlock(blocks, s, stride, slot);
    SlotInBlock(blocks, s, stride, other);
    if other.store == slot.store {
      if other.index < slot.index { SlotsApart(other.index, slot.index, stride); }
      if slot.index < other.index { SlotsApart(slot.index, other.index, stride); }
    }
  }

  /** A caller stores a byte into its payload. */
  lemma PayloadWriteKeepsLayout(blocks: seq<Block>, head: FreeInfo, s: State, stride: nat, slot: Slot, i: nat, v: Byte)
    requires Layout(blocks, head, s, stride) && slot in s.live && HEADER_SIZE + i < stride
    ensures slot.store < |blocks| && Offset(slot.index, stride) + stride <= |blocks[slot.store]|
    ensures |PayloadAt(blocks, slot, stride)| == stride - HEADER_SIZE
    ensures var after := PayloadWritten(blocks, slot, stride, i, v);
      && Layout(after, head, s, stride)
      && Untouched(blocks, after, s.live - {slot}, stride)
      && HeaderAt(after, slot, stride) == HeaderAt(blocks, slot, stride)
      && PayloadAt(after, slot, stride) == PayloadAt(blocks, slot, stride)[i := v]
  {
    Placed(s);
    PayloadFrame(blocks, s, stride, slot, i, v, slot);
    var after := PayloadWritten(blocks, slot, stride, i, v);
    forall other | Exists(s, other)
      ensures HeaderAt(after, other, stride) == HeaderAt(blocks, other, stride)
      ensures other != slot ==> PayloadAt(after, other, stride) == PayloadAt(blocks, other, stride)
    {
      PayloadFrame(blocks, s, stride, slot, i, v, other);
    }
    PayloadWritesAreHarmless(blocks, after, head, s, stride);
  }

  /** A listed slot's link fits its bit fields and differs from the null link. */
  lemma LinkFits(blocks: seq<Block>, s: State, stride: nat, i: nat)
    requires Shaped(blocks, s, stride) && Partition(s)
    ensures var link := Link(s.list, i, stride);
      && link.storeIndex < 256 && link.memoryIndex < 0x100_0000_0000_0000
      && (link == NULL_INDEX <==> i >= |s.list|)
  {
    if i < |s.list| {
      assert InOnePlace(s, s.list[i]);
      SlotInBlock(blocks, s, stride, s.list[i]);
    }
  }

  function Rewritten(blocks: seq<Block>, slot: Slot, stride: nat, header: seq<Byte>): (r: seq<Block>)
    requires slot.store < |blocks| && Offset(slot.index, stride) + HEADER_SIZE <= |blocks[slot.store]|
    requires |header| == HEADER_SIZE
    ensures |r| == |blocks|
  {
    blocks[slot.store := WithHeader(blocks[slot.store], Offset(slot.index, stride), header)]
  }

  lemma KeepsListed(blocks: seq<Block>, s: State, stride: nat, slot: Slot, header: seq<Byte>, list: seq<Slot>, i: nat)
    requires Shaped(blocks, s, stride) && Exists(s, slot) && |header| == HEADER_SIZE
    requires i < |list| && Exists(s, list[i]) && list[i] != slot && ListedAt(blocks, list, i, stride)
    ensures Offset(slot.index, stride) + HEADER_SIZE <= |blocks[slot.store]|
    ensures ListedAt(Rewritten(blocks, slot, stride, header), list, i, stride)
  {
    HeaderFrame(blocks, s, stride, slot, header, list[i]);
  }

  lemma KeepsLive(blocks: seq<Block>, s: State, stride: nat, slot: Slot, header: seq<Byte>, other: Slot)
    requires Shaped(blocks, s, stride) && Exists(s, slot) && |header| == HEADER_SIZE && Exists(s, other)
    requires if other == slot then ReadStoreIndex(header) == slot.store && ChecksPass(header)
             else LiveAt(blocks, other, stride)
    ensures Offset(slot.index, stride) + HEADER_SIZE <= |blocks[slot.store]|
    ensures LiveAt(Rewritten(blocks, slot, stride, header), other, stride)
  {
    HeaderFrame(blocks, s, stride, slot, header, other);
  }

  lemma ListedShifts(blocks: seq<Block>, list: seq<Slot>, front: seq<Slot>, i: nat, stride: nat)
    requires i < |list|
    ensures ListedAt(blocks, front + list, |front| + i, stride) == ListedAt(blocks, list, i, stride)
  {
    assert (front + list)[|front| + i] == list[i];
    assert i + 1 < |list| ==> (front + list)[|front| + i + 1] == list[i + 1];
  }

  /** Rewriting one header keeps the threading of a list that avoids the slot. */
  lemma KeepsThread(blocks: seq<Block>, s: State, stride: nat, slot: Slot, header: seq<Byte>, list: seq<Slot>)
    requires Shaped(blocks, s, stride) && Exists(s, slot) && |header| == HEADER_SIZE
    requires forall i :: 0 <= i < |list| ==> Exists(s, list[i]) && list[i] != slot && ListedAt(blocks, list, i, stride)
    ensures Offset(slot.index, stride) + HEADER_SIZE <= |blocks[slot.store]|
    ensures forall i :: 0 <= i < |list| ==> ListedAt(Rewritten(blocks, slot, stride, header), list, i, stride)
  {
    SlotInBlock(blocks, s, stride, slot);
    forall i | 0 <= i < |list| ensures ListedAt(Rewritten(blocks, slot, stride, header), list, i, stride) {
      KeepsListed(blocks, s, stride, slot, header, list, i);
    }
  }

  /** ... and the headers of the live slots, the slot itself included if it is one. */
  lemma KeepsLives(blocks: seq<Block>, s: State, stride: nat, slot: Slot, header: seq<Byte>, live: set<Slot>)
    requires Shaped(blocks, s, stride) && Exists(s, slot) && |header| == HEADER_SIZE
    requires LiveHeaders(blocks, live - {slot}, stride)
    requires forall other :: other in live ==> Exists(s, other)
    requires slot in live ==> ReadStoreIndex(header) == slot.store && ChecksPass(header)
    ensures Offset(slot.index, stride) + HEADER_SIZE <= |blocks[slot.store]|
    ensures LiveHeaders(Rewritten(blocks, slot, stride, header), live, stride)
  {
    SlotInBlock(blocks, s, stride, slot);
    forall other | other in live ensures LiveAt(Rewritten(blocks, slot, stride, header), other, stride) {
      assert other != slot ==> other in live - {slot};
      KeepsLive(blocks, s, stride, slot, header, other);
    }
  }

  /** What the partition says about the places where headers are. */
  lemma Placed(s: State)
    requires Partition(s)
    ensures forall i :: 0 <= i < |s.list| ==> Exists(s, s.list[i]) && s.list[i] !in s.live
    ensures forall slot :: slot in s.live ==> Exists(s, slot)
    ensures forall i :: 1 <= i < |s.list| ==> s.list[i] != s.list[0]
  {
    forall i | 0 <= i < |s.list| ensures Exists(s, s.list[i]) && s.list[i] !in s.live {
      assert InOnePlace(s, s.list[i]);
    }
    forall slot | slot in s.live ensures Exists(s, slot) {
      assert InOnePlace(s, slot);
    }
  }

  lemma PopKeepsThread(blocks: seq<Block>, list: seq<Slot>, stride: nat)
    requires list != []
    requires forall i :: 1 <= i < |list| ==> ListedAt(blocks, list, i, stride)
    ensures Threaded(blocks, Link(list, 1, stride), list[1..], stride)
  {
    forall i | 0 <= i < |list[1..]| ensures ListedAt(blocks, list[1..], i, stride) {
      assert [list[0]] + list[1..] == list;
      ListedShifts(blocks, list[1..], [list[0]], i, stride);
    }
  }

  /** The slots in `live` keep their headers and their payloads. */
  ghost predicate Untouched(before: seq<Block>, after: seq<Block>, live: set<Slot>, stride: nat) {
    forall slot :: slot in live ==>
      && HeaderAt(after, slot, stride) == HeaderAt(before, slot, stride)
      && PayloadAt(after, slot, stride) == PayloadAt(before, slot, stride)
  }

  lemma UntouchedTwice(before: seq<Block>, between: seq<Block>, after: seq<Block>, live: set<Slot>, stride: nat)
    requires Untouched(before, between, live, stride) && Untouched(between, after, live, stride)
    ensures Untouched(before, after, live, stride)
  {
  }

  lemma RewriteTouchesNoOther(blocks: seq<Block>, s: State, stride: nat, slot: Slot, header: seq<Byte>, live: set<Slot>)
    requires Shaped(blocks, s, stride) && Exists(s, slot) && |header| == HEADER_SIZE && slot !in live
    requires forall other :: other in live ==> Exists(s, other)
    ensures Offset(slot.index, stride) + HEADER_SIZE <= |blocks[slot.store]|
    ensures Untouched(blocks, Rewritten(blocks, slot, stride, header), live, stride)
  {
    SlotInBlock(blocks, s, stride, slot);
    forall other | other in live
      ensures HeaderAt(Rewritten(blocks, slot, stride, header), other, stride) == HeaderAt(blocks, other, stride)
           && PayloadAt(Rewritten(blocks, slot, stride, header), other, stride) == PayloadAt(blocks, other, stride)
    {
      HeaderFrame(blocks, s, stride, slot, header, other);
    }
  }

  lemma GrowthTouchesNone(blocks: seq<Block>, s: State, stride: nat, block: Block)
    requires Partition(s) && |blocks| == s.stores
    ensures Untouched(blocks, blocks + [block], s.live, stride)
  {
    Placed(s);
  }

  /** `memory::get_memory` writes the size into the header of a live slot. */
  lemma SizeKeepsLayout(blocks: seq<Block>, head: FreeInfo, s: State, stride: nat, slot: Slot, header: seq<Byte>)
    requires Layout(blocks, head, s, stride) && slot in s.live
    requires |header| == HEADER_SIZE && ReadStoreIndex(header) == slot.store && ChecksPass(header)
    ensures slot.store < |blocks| && Offset(slot.index, stride) + stride <= |blocks[slot.store]|
    ensures Layout(Rewritten(blocks, slot, stride, header), head, s, stride)
    ensures Untouched(blocks, Rewritten(blocks, slot, stride, header), s.live - {slot}, stride)
    ensures HeaderAt(Rewritten(blocks, slot, stride, header), slot, stride) == header
  {
    Placed(s);
    SlotInBlock(blocks, s, stride, slot);
    KeepsThread(blocks, s, stride, slot, header, s.list);
    KeepsLives(blocks, s, stride, slot, header, s.live);
    RewriteTouchesNoOther(blocks, s, stride, slot, header, s.live - {slot});
    HeaderFrame(blocks, s, stride, slot, header, slot);
  }

  /** What `get_memory` finds when it follows the head of the list. */
  lemma HeadIsListed(blocks: seq<Block>, head: FreeInfo, s: State, stride: nat)
    requires Layout(blocks, head, s, stride) && s.list != []
    ensures head == FreeInfo(s.list[0].store, Offset(s.list[0].index, stride)) && head != NULL_INDEX
    ensures head.storeIndex < |blocks| && head.storeIndex < 256
    ensures head.memoryIndex + stride <= |blocks[head.storeIndex]| && stride >= 16
    ensures ReadFree(blocks[head.storeIndex][head.memoryIndex..head.memoryIndex + HEADER_SIZE]) == Link(s.list, 1, stride)
  {
    Placed(s);
    SlotInBlock(blocks, s, stride, s.list[0]);
    LinkFits(blocks, s, stride, 0);
    assert ListedAt(blocks, s.list, 0, stride);
  }

  /** What `free` finds in the header of a live slot; its assertions hold. */
  lemma LiveIsHanded(blocks: seq<Block>, head: FreeInfo, s: State, stride: nat, slot: Slot)
    requires Layout(blocks, head, s, stride) && slot in s.live
    ensures slot.store < |blocks| && Offset(slot.index, stride) + stride <= |blocks[slot.store]| && stride >= 16
    ensures var offset := Offset(slot.index, stride);
      var header := blocks[slot.store][offset..offset + HEADER_SIZE];
      && ReadStoreIndex(header) == slot.store && ChecksPass(header)
      && offset % stride == 0
  {
    Placed(s);
    SlotInBlock(blocks, s, stride, slot);
    OffsetIsMultiple(slot.index, stride);
    assert LiveAt(blocks, slot, stride);
  }

  lemma OffsetIsMultiple(index: nat, stride: nat)
    requires stride > 0
    ensures Offset(index, stride) % stride == 0
  {
    OffsetIsProduct(index, stride);
    MultipleHasNoRest(index * stride, stride, index);
  }

  lemma MultipleHasNoRest(x: nat, n: nat, q: nat)
    requires n > 0 && x == q * n
    ensures x % n == 0
  {
    var d, r := q - x / n, x % n;
    assert r == d * n;
    assert d >= 1 ==> d * n >= n;
    assert d <= -1 ==> d * n + n <= 0;
  }

  /** `get_memory` from the free list: the popped header yields the next head. */
  lemma PopKeepsLayout(blocks: seq<Block>, head: FreeInfo, s: State, stride: nat, header: seq<Byte>)
    requires Layout(blocks, head, s, stride) && s.list != []
    requires |header| == HEADER_SIZE && ReadStoreIndex(header) == s.list[0].store && ChecksPass(header)
    ensures s.list[0].store < |blocks| && Offset(s.list[0].index, stride) + stride <= |blocks[s.list[0].store]|
    ensures Layout(Rewritten(blocks, s.list[0], stride, header), Link(s.list, 1, stride), AfterPop(s), stride)
    ensures Untouched(blocks, Rewritten(blocks, s.list[0], stride, header), s.live, stride)
  {
    var slot := s.list[0];
    Placed(s);
    SlotInBlock(blocks, s, stride, slot);
    var blocks' := Rewritten(blocks, slot, stride, header);
    assert Partition(AfterPop(s)) by { PopKeepsPartition(s); }
    assert Sized(AfterPop(s)) by { GetKeepsSized(s); }
    assert Threaded(blocks', Link(s.list, 1, stride), s.list[1..], stride) by {
      PopKeepsThread(blocks, s.list, stride);
      KeepsThread(blocks, s, stride, slot, header, s.list[1..]);
    }
    KeepsLives(blocks, s, stride, slot, header, AfterPop(s).live);
    RewriteTouchesNoOther(blocks, s, stride, slot, header, s.live);
  }

  /** `free`: the old head goes into the header, the slot becomes the head. */
  lemma FreeKeepsLayout(blocks: seq<Block>, head: FreeInfo, s: State, stride: nat, slot: Slot)
    requires Layout(blocks, head, s, stride) && slot in s.live
    ensures slot.store < |blocks| && Offset(slot.index, stride) + stride <= |blocks[slot.store]|
    ensures Layout(Rewritten(blocks, slot, stride, FreeBytes(head)),
                   FreeInfo(slot.store, Offset(slot.index, stride)), AfterFree(s, slot), stride)
    ensures Untouched(blocks, Rewritten(blocks, slot, stride, FreeBytes(head)), s.live - {slot}, stride)
  {
    Placed(s);
    SlotInBlock(blocks, s, stride, slot);
    var header := FreeBytes(head);
    var blocks' := Rewritten(blocks, slot, stride, header);
    var list' := [slot] + s.list;
    assert Partition(AfterFree(s, slot)) by { FreeKeepsPartition(s, slot); }
    assert ReadFree(header) == head by { LinkFits(blocks, s, stride, 0); FreeRoundTrip(head); }
    forall i | 0 <= i < |list'| ensures ListedAt(blocks', list', i, stride) {
      if i == 0 {
        HeaderFrame(blocks, s, stride, slot, header, slot);
      } else {
        KeepsThread(blocks, s, stride, slot, header, s.list);
        ListedShifts(blocks', s.list, [slot], i - 1, stride);
      }
    }
    KeepsLives(blocks, s, stride, slot, header, AfterFree(s, slot).live);
    RewriteTouchesNoOther(blocks, s, stride, slot, header, s.live - {slot});
  }

  // ----- growth -----

  /** Slot `j` of a new block holds what the threading loop stores there. */
  ghost predicate NewLink(block: Block, store: nat, j: nat, stride: nat) {
    var offset := Offset(j, stride);
    && offset + HEADER_SIZE <= |block|
    && ReadFree(block[offset..offset + HEADER_SIZE])
         == (if j + 1 < Capacity(store) then FreeInfo(store, Offset(j + 1, stride)) else NULL_INDEX)
  }

  /** Storing the header of slot `slot` of a new block leaves the other links alone. */
  lemma NewLinkFrame(block: Block, store: nat, slot: nat, header: seq<Byte>, j: nat, stride: nat)
    requires stride >= HEADER_SIZE && |header| == HEADER_SIZE && j != slot
    requires Offset(slot, stride) + HEADER_SIZE <= |block| && NewLink(block, store, j, stride)
    ensures NewLink(WithHeader(block, Offset(slot, stride), header), store, j, stride)
  {
    if j < slot { SlotsApart(j, slot, stride); } else { SlotsApart(slot, j, stride); }
    OtherBytes(block, Offset(slot, stride), header, Offset(j, stride));
  }

  lemma OtherBytes(block: Block, at: nat, header: seq<Byte>, other: nat)
    requires at + HEADER_SIZE <= |block| && other + HEADER_SIZE <= |block| && |header| == HEADER_SIZE
    requires other + HEADER_SIZE <= at || at + HEADER_SIZE <= other
    ensures WithHeader(block, at, header)[other..other + HEADER_SIZE] == block[other..other + HEADER_SIZE]
  {
  }

  lemma NewLinkStored(block: Block, store: nat, slot: nat, link: FreeInfo, stride: nat)
    requires stride >= HEADER_SIZE && Offset(slot, stride) + HEADER_SIZE <= |block|
    requires link == if slot + 1 < Capacity(store) then FreeInfo(store, Offset(slot + 1, stride)) else NULL_INDEX
    requires link.storeIndex < 256 && link.memoryIndex < 0x100_0000_0000_0000
    ensures NewLink(WithHeader(block, Offset(slot, stride), FreeBytes(link)), store, slot, stride)
  {
    FreeRoundTrip(link);
  }

  lemma GrowLists(blocks: seq<Block>, store: nat, stride: nat, block: Block, i: nat)
    requires store == |blocks| && i + 1 < Capacity(store) && NewLink(block, store, i + 1, stride)
    ensures ListedAt(blocks + [block], NewList(store), i, stride)
  {
    assert (blocks + [block])[store] == block;
    assert NewList(store)[i] == Slot(store, i + 1);
    assert i + 2 < Capacity(store) ==> NewList(store)[i + 1] == Slot(store, i + 2);
  }

  lemma GrowThreads(blocks: seq<Block>, store: nat, stride: nat, block: Block)
    requires store == |blocks|
    requires forall j :: 1 <= j < Capacity(store) ==> NewLink(block, store, j, stride)
    ensures Threaded(blocks + [block], FreeInfo(store, Offset(1, stride)), NewList(store), stride)
  {
    forall i | 0 <= i < |NewList(store)| ensures ListedAt(blocks + [block], NewList(store), i, stride) {
      GrowLists(blocks, store, stride, block, i);
    }
  }

  lemma GrowKeepsLives(blocks: seq<Block>, block: Block, live: set<Slot>, store: nat, stride: nat)
    requires LiveHeaders(blocks, live, stride) && store == |blocks| && HEADER_SIZE <= |block|
    requires ReadStoreIndex(block[..HEADER_SIZE]) == store && ChecksPass(block[..HEADER_SIZE])
    ensures LiveHeaders(blocks + [block], live + {Slot(store, 0)}, stride)
  {
    var blocks' := blocks + [block];
    forall slot | slot in live + {Slot(store, 0)} ensures LiveAt(blocks', slot, stride) {
      if slot in live {
        assert LiveAt(blocks, slot, stride);
        assert HeaderAt(blocks', slot, stride) == HeaderAt(blocks, slot, stride);
      } else {
        assert HeaderAt(blocks', slot, stride) == block[..HEADER_SIZE];
      }
    }
  }

  /** What the threading loop of `get_memory` leaves in a new block. */
  ghost predicate NewBlock(block: Block, store: nat, stride: nat) {
    && stride >= 16 && store < 32
    && |block| == Offset(Capacity(store), stride) <= 0x1_0000_0000
    && (forall j :: 1 <= j < Capacity(store) ==> NewLink(block, store, j, stride))
    && HEADER_SIZE <= |block|
    && ReadStoreIndex(block[..HEADER_SIZE]) == store && ChecksPass(block[..HEADER_SIZE])
  }

  lemma GrowShapes(blocks: seq<Block>, s: State, s': State, stride: nat, block: Block)
    requires Shaped(blocks, s, stride) && NewBlock(block, s.stores, stride) && s'.stores == s.stores + 1
    ensures Shaped(blocks + [block], s', stride)
  {
  }

  /** `get_memory` with an empty list: a new block, threaded from its second slot on. */
  lemma GrowKeepsLayout(blocks: seq<Block>, head: FreeInfo, s: State, stride: nat, block: Block)
    requires Layout(blocks, head, s, stride) && s.list == [] && NewBlock(block, s.stores, stride)
    ensures Layout(blocks + [block], FreeInfo(s.stores, stride), AfterGrow(s), stride)
    ensures Capacity(AfterGrow(s).stores) == 2 * Capacity(s.stores)
    ensures Untouched(blocks, blocks + [block], s.live, stride)
  {
    assert Offset(1, stride) == stride;
    GrowthTouchesNone(blocks, s, stride, block);
    GrowShapes(blocks, s, AfterGrow(s), stride, block);
    GrowThreads(blocks, s.stores, stride, block);
    GrowKeepsLives(blocks, block, s.live, s.stores, stride);
    GrowKeepsPartition(s);
    GetKeepsSized(s);
  }

  /** A block of at most 2^32 bytes can only be one of the first 26, so the byte bound
      alone keeps `store_block` from overflowing. */
  lemma ByteBoundLimitsStores(store: nat, stride: nat)
    requires stride >= 16 && Offset(Capacity(store), stride) <= 0x1_0000_0000
    ensures store < 26
  {
    OffsetGrows(Capacity(store), stride);
    assert Pow2(26) == 0x400_0000 by {
      Pow2Step(0); Pow2Step(8); Pow2Step(16);
      assert Pow2(26) == 2 * Pow2(25) == 4 * Pow2(24);
    }
    if store >= 26 {
      Pow2Grows(26, store);
    }
  }

  lemma {:induction false} OffsetGrows(index: nat, stride: nat)
    requires stride >= 16
    ensures Offset(index, stride) >= 16 * index
  {
    if index == 0 {
    } else {
      OffsetGrows(index - 1, stride);
    }
  }

  lemma {:induction false} Pow2Grows(m: nat, n: nat)
    requires m <= n
    ensures Pow2(m) <= Pow2(n)
  {
    if m == n {
    } else {
      Pow2Grows(m, n - 1);
    }
  }
}
