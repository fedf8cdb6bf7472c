/** What the slab allocator does, on values: which slots exist, which are live, and
    the order of the free list. `SlabAllocator` implements this over raw bytes. */
module Slab {
  import opened Basics

  /** A slot of a store block: `index` strides from the start of block `store`. */
  datatype Slot = Slot(store: nat, index: nat)

  datatype State = State(
    stores: nat,          // last_store_index + 1
    list: seq<Slot>,      // the free list, from free_start_index
    live: set<Slot>,      // handed out and not freed
    peak: nat             // history: the most slots ever live at once
  )

  const MIN_CAPACITY: nat := 8

  function Initial(): State { State(0, [], {}, 0) }

  /** Slots of store block `store`; every growth doubles the block size. */
  function Capacity(store: nat): (n: nat)
    ensures n >= MIN_CAPACITY
  {
    MIN_CAPACITY * Pow2(store)
  }

  function TotalSlots(stores: nat): nat {
    if stores == 0 then 0 else TotalSlots(stores - 1) + Capacity(stores - 1)
  }

  predicate Exists(s: State, slot: Slot) {
    slot.store < s.stores && slot.index < Capacity(slot.store)
  }

  /** The slots of a new block that go on the free list: all but the first. */
  function NewList(store: nat): (list: seq<Slot>)
    ensures |list| == Capacity(store) - 1
    ensures forall i :: 0 <= i < |list| ==> list[i] == Slot(store, i + 1)
  {
    seq(Capacity(store) - 1, i requires i >= 0 => Slot(store, i + 1))
  }

  /** `get_memory`: pop the free list, or grow by one block and take its first slot. */
  function Taken(s: State): Slot {
    if s.list == [] then Slot(s.stores, 0) else s.list[0]
  }

  function AfterGrow(s: State): State {
    var live := s.live + {Slot(s.stores, 0)};
    State(s.stores + 1, NewList(s.stores), live, Max(s.peak, |live|))
  }

  function AfterPop(s: State): State
    requires s.list != []
  {
    var live := s.live + {s.list[0]};
    State(s.stores, s.list[1..], live, Max(s.peak, |live|))
  }

  function AfterGet(s: State): State {
    if s.list == [] then AfterGrow(s) else AfterPop(s)
  }

  /** `free`: push the slot on the free list. */
  function AfterFree(s: State, slot: Slot): State {
    s.(list := [slot] + s.list, live := s.live - {slot})
  }

  // ----- the invariant: an exact partition -----

  ghost predicate NoDuplicates(list: seq<Slot>) {
    forall i, j :: 0 <= i < j < |list| ==> list[i] != list[j]
  }

  /** A slot is live or listed exactly when it exists, and never both. */
  ghost predicate InOnePlace(s: State, slot: Slot) {
    && (Exists(s, slot) <==> (slot in s.live || slot in s.list))
    && !(slot in s.live && slot in s.list)
  }

  ghost predicate Partition(s: State) {
    && NoDuplicates(s.list)
    && (forall slot :: InOnePlace(s, slot))
  }

  ghost predicate Sized(s: State) {
    && |s.live| + |s.list| == TotalSlots(s.stores)
    && |s.live| <= s.peak
    && TotalSlots(s.stores) <= 2 * s.peak + 6
  }

  /** A slot that is handed out exists and was not live. */
  lemma TakenIsFresh(s: State)
    requires Partition(s)
    ensures Exists(AfterGet(s), Taken(s)) && Taken(s) !in s.live
  {
    assert InOnePlace(s, Taken(s));
  }

  lemma GrowKeepsPartition(s: State)
    requires Partition(s) && s.list == []
    ensures Partition(AfterGrow(s))
  {
    var s' := AfterGrow(s);
    forall slot ensures InOnePlace(s', slot) {
      assert InOnePlace(s, slot);
      if slot.store == s.stores && 0 < slot.index < Capacity(slot.store) {
        assert s'.list[slot.index - 1] == slot;
      }
    }
  }

  lemma PopKeepsPartition(s: State)
    requires Partition(s) && s.list != []
    ensures Partition(AfterPop(s))
  {
    var s' := AfterPop(s);
    assert s.list == [s.list[0]] + s'.list;
    forall slot ensures InOnePlace(s', slot) {
      assert InOnePlace(s, slot);
    }
  }

  lemma FreeKeepsPartition(s: State, slot: Slot)
    requires Partition(s) && slot in s.live
    ensures Partition(AfterFree(s, slot))
  {
    var s' := AfterFree(s, slot);
    assert InOnePlace(s, slot);
    forall other ensures InOnePlace(s', other) {
      assert InOnePlace(s, other);
    }
  }

  /** Capacity is exactly 8(2^k - 1) after k growths. */
  lemma {:induction false} TotalSlotsClosed(stores: nat)
    ensures TotalSlots(stores) == 8 * (Pow2(stores) - 1)
  {
    if stores == 0 {
    } else {
      TotalSlotsClosed(stores - 1);
    }
  }

  lemma GetKeepsSized(s: State)
    requires Partition(s) && Sized(s)
    ensures Sized(AfterGet(s))
  {
    TakenIsFresh(s);
    TotalSlotsClosed(s.stores);
    TotalSlotsClosed(s.stores + 1);
  }

  // ----- every run -----

  datatype Operation = Get | Free(slot: Slot)

  /** Every free is on a live slot. */
  ghost predicate Legal(s: State, ops: seq<Operation>)
    decreases |ops|
  {
    ops != [] ==>
      match ops[0]
      case Get => Legal(AfterGet(s), ops[1..])
      case Free(slot) => slot in s.live && Legal(AfterFree(s, slot), ops[1..])
  }

  ghost function Run(s: State, ops: seq<Operation>): State
    requires Legal(s, ops)
    decreases |ops|
  {
    if ops == [] then s
    else match ops[0]
      case Get => Run(AfterGet(s), ops[1..])
      case Free(slot) => Run(AfterFree(s, slot), ops[1..])
  }

  lemma GetKeepsPartition(s: State)
    requires Partition(s)
    ensures Partition(AfterGet(s))
  {
    if s.list == [] { GrowKeepsPartition(s); } else { PopKeepsPartition(s); }
  }

  /** After every legal run: live and listed slots partition all slots, the total is
      8(2^k - 1), and it never exceeds twice the peak of live slots plus 6. */
  lemma {:induction false} EveryRun(s: State, ops: seq<Operation>)
    requires Partition(s) && Sized(s) && Legal(s, ops)
    ensures var r := Run(s, ops);
      && Partition(r)
      && |r.live| + |r.list| == 8 * (Pow2(r.stores) - 1) <= 2 * r.peak + 6
      && s.peak <= r.peak
    decreases |ops|
  {
    if ops == [] {
      TotalSlotsClosed(s.stores);
    } else {
      match ops[0] {
        case Get =>
          GetKeepsPartition(s);
          GetKeepsSized(s);
          EveryRun(AfterGet(s), ops[1..]);
        case Free(slot) =>
          FreeKeepsPartition(s, slot);
          EveryRun(AfterFree(s, slot), ops[1..]);
      }
    }
  }

  /** At some point of the run, `k` slots are live. */
  ghost predicate SometimesLive(s: State, ops: seq<Operation>, k: nat)
    requires Legal(s, ops)
    decreases |ops|
  {
    || |s.live| == k
    || (ops != [] &&
        match ops[0]
        case Get => SometimesLive(AfterGet(s), ops[1..], k)
        case Free(slot) => SometimesLive(AfterFree(s, slot), ops[1..], k))
  }

  lemma {:induction false} PeakIsReached(s: State, ops: seq<Operation>)
    requires Legal(s, ops)
    ensures Run(s, ops).peak == s.peak || SometimesLive(s, ops, Run(s, ops).peak)
    decreases |ops|
  {
    if ops == [] {
    } else {
      match ops[0] {
        case Get => PeakIsReached(AfterGet(s), ops[1..]);
        case Free(slot) => PeakIsReached(AfterFree(s, slot), ops[1..]);
      }
    }
  }

  /** The same from a fresh allocator on, which nothing else is required of; the peak is a
      number of slots that are live at some point of the run. */
  lemma FromTheStart(ops: seq<Operation>)
    requires Legal(Initial(), ops)
    ensures var r := Run(Initial(), ops);
      && Partition(r)
      && |r.live| + |r.list| == 8 * (Pow2(r.stores) - 1) <= 2 * r.peak + 6
      && SometimesLive(Initial(), ops, r.peak)
  {
    assert Partition(Initial()) && Sized(Initial());
    EveryRun(Initial(), ops);
    PeakIsReached(Initial(), ops);
  }

  /** The state after `k` calls of `get_memory`. */
  function AfterGets(s: State, k: nat): State {
    if k == 0 then s else AfterGet(AfterGets(s, k - 1))
  }

  /** A block is handed out from its start to its end: behind an empty list, call number k
      takes slot k of the new block. */
  lemma {:induction false} BlockInOrder(s: State, k: nat)
    requires s.list == [] && k < 8 * Pow2(s.stores)
    ensures Taken(AfterGets(s, k)) == Slot(s.stores, k)
    ensures k > 0 ==> AfterGets(s, k).stores == s.stores + 1 && AfterGets(s, k).list == NewList(s.stores)[k - 1..]
  {
    if k <= 1 {
      assert k == 1 ==> AfterGets(s, k) == AfterGet(AfterGets(s, 0));
    } else {
      BlockInOrder(s, k - 1);
    }
  }

  /** `free` undoes `get_memory`: the slot is on top of the list again, and a second
      `get_memory` hands out the same slot. */
  lemma FreeUndoesGet(s: State)
    requires Partition(s)
    ensures var r := AfterFree(AfterGet(s), Taken(s));
      && r.live == s.live
      && Taken(r) == Taken(s)
      && (s.list != [] ==> r.list == s.list && r.stores == s.stores)
  {
    TakenIsFresh(s);
    if s.list != [] { assert [s.list[0]] + s.list[1..] == s.list; }
  }
}
