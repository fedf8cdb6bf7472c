/** Delayed deletion of closed executors: `event_distributor::delayed_free`, the
    draining loop of `event_distributor::cleanup`, and `event_cleanup`.

    Both run under `eventdist_lock`, so every interleaving is a sequence of whole
    operations. Clock readings are parameters: one for a `delayed_free`, and one per
    call of `to_free` for a draining pass. */
module Cleanup {

  /** A nanosecond count of `system_clock`, a signed 64-bit value. */
  type Nanos = t: nat | t < 0x8000_0000_0000_0000

  const EVENT_CLEANUP_TIME_IN_NS: nat := 2_000_000_000

  /** An executor, by identity. */
  type ExecutorId = nat

  datatype CleanupEntry = CleanupEntry(ptr: ExecutorId, timestamp: Nanos)
  {
    predicate ToFree(now: Nanos) {
      timestamp + EVENT_CLEANUP_TIME_IN_NS <= now
    }
  }

  /** One `delete`: by a draining pass at a clock reading, or by the last drain. */
  datatype Deletion = ByPass(entry: CleanupEntry, now: Nanos) | AtExit(entry: CleanupEntry)

  datatype Store = Store(
    received: set<ExecutorId>,     // closed_received
    queue: seq<CleanupEntry>,      // cleanup_queue
    deleted: seq<Deletion>         // history
  )

  function Empty(): Store { Store({}, [], []) }

  /** `delayed_free`: queue the executor unless it is queued already. */
  function Request(s: Store, ptr: ExecutorId, now: Nanos): Store {
    if ptr in s.received then s
    else s.(received := s.received + {ptr}, queue := s.queue + [CleanupEntry(ptr, now)])
  }

  /** `remove_and_free` and `pop` on the front entry. */
  function DeleteFront(s: Store, how: Deletion): Store
    requires s.queue != []
  {
    Store(s.received - {s.queue[0].ptr}, s.queue[1..], s.deleted + [how])
  }

  /** One draining pass; `clock[k]` is the reading of the k-th `to_free`. */
  function Pass(s: Store, clock: seq<Nanos>): Store
    requires |clock| >= |s.queue|
    decreases |s.queue|
  {
    if s.queue == [] || !s.queue[0].ToFree(clock[0]) then s
    else Pass(DeleteFront(s, ByPass(s.queue[0], clock[0])), clock[1..])
  }

  /** The loop after `is_terminate`, which does not look at the clock. */
  function DrainAll(s: Store): Store
    decreases |s.queue|
  {
    if s.queue == [] then s else DrainAll(DeleteFront(s, AtExit(s.queue[0])))
  }

  // ----- every run -----

  datatype Operation =
    | DelayedFree(ptr: ExecutorId, now: Nanos)
    | CleanupPass(clock: seq<Nanos>)
    | FinalDrain

  function Apply(s: Store, op: Operation): Store
    requires op.CleanupPass? ==> |op.clock| >= |s.queue|
  {
    match op
    case DelayedFree(ptr, now) => Request(s, ptr, now)
    case CleanupPass(clock) => Pass(s, clock)
    case FinalDrain => DrainAll(s)
  }

  ghost predicate Nondecreasing(clock: seq<Nanos>, since: Nanos) {
    && (forall i :: 0 <= i < |clock| ==> since <= clock[i])
    && (forall i, j :: 0 <= i <= j < |clock| ==> clock[i] <= clock[j])
  }

  /** What the callers owe: a clock that never goes back, and no use of a deleted executor. */
  ghost predicate Allowed(s: Store, op: Operation, since: Nanos) {
    match op
    case DelayedFree(ptr, now) => since <= now && forall i :: 0 <= i < |s.deleted| ==> s.deleted[i].entry.ptr != ptr
    case CleanupPass(clock) => |clock| >= |s.queue| && Nondecreasing(clock, since)
    case FinalDrain => true
  }

  function Latest(op: Operation, since: Nanos): Nanos {
    match op
    case DelayedFree(_, now) => now
    case CleanupPass(clock) => if clock == [] then since else clock[|clock| - 1]
    case FinalDrain => since
  }

  /** Two seconds lie between the request and the clock reading. */
  predicate GraceIsOver(entry: CleanupEntry, now: Nanos) {
    entry.timestamp + 2_000_000_000 <= now
  }

  ghost predicate Inv(s: Store, since: Nanos) {
    // closed_received is exactly the set of queued executors
    && (forall p :: p in s.received <==> exists i :: 0 <= i < |s.queue| && s.queue[i].ptr == p)
    // each is queued once and deleted at most once
    && (forall i, j :: 0 <= i < j < |s.queue| ==> s.queue[i].ptr != s.queue[j].ptr)
    && (forall i, j :: 0 <= i < j < |s.deleted| ==> s.deleted[i].entry.ptr != s.deleted[j].entry.ptr)
    && (forall i, j :: 0 <= i < |s.deleted| && 0 <= j < |s.queue| ==> s.deleted[i].entry.ptr != s.queue[j].ptr)
    // the queue is in order of age
    && (forall i, j :: 0 <= i < j < |s.queue| ==> s.queue[i].timestamp <= s.queue[j].timestamp)
    && (forall i :: 0 <= i < |s.queue| ==> s.queue[i].timestamp <= since)
    // while running, nothing is deleted before its grace period is over
    && (forall i :: 0 <= i < |s.deleted| && s.deleted[i].ByPass? ==> GraceIsOver(s.deleted[i].entry, s.deleted[i].now))
  }

  lemma RequestInv(s: Store, ptr: ExecutorId, now: Nanos, since: Nanos)
    requires Inv(s, since) && Allowed(s, DelayedFree(ptr, now), since)
    ensures Inv(Request(s, ptr, now), now)
  {
    var s' := Request(s, ptr, now);
    if ptr !in s.received {
      assert s'.queue[|s.queue|].ptr == ptr;
      assert forall i :: 0 <= i < |s.queue| ==> s'.queue[i] == s.queue[i];
    }
  }

  lemma DeleteFrontInv(s: Store, how: Deletion, since: Nanos)
    requires Inv(s, since) && s.queue != [] && how.entry == s.queue[0]
    requires how.ByPass? ==> GraceIsOver(how.entry, how.now)
    ensures Inv(DeleteFront(s, how), since)
  {
    var s' := DeleteFront(s, how);
    assert forall i :: 0 <= i < |s'.queue| ==> s'.queue[i] == s.queue[i + 1];
    forall p ensures p in s'.received <==> exists i :: 0 <= i < |s'.queue| && s'.queue[i].ptr == p {
      if p in s'.received {
        var i :| 0 <= i < |s.queue| && s.queue[i].ptr == p;
        assert s'.queue[i - 1].ptr == p;
      }
    }
  }

  lemma {:induction false} PassInv(s: Store, clock: seq<Nanos>, since: Nanos)
    requires Inv(s, since) && |clock| >= |s.queue|
    ensures Inv(Pass(s, clock), since)
    decreases |s.queue|
  {
    if s.queue == [] || !s.queue[0].ToFree(clock[0]) {
    } else {
      var how := ByPass(s.queue[0], clock[0]);
      DeleteFrontInv(s, how, since);
      PassInv(DeleteFront(s, how), clock[1..], since);
    }
  }

  lemma {:induction false} PassTakesPrefix(s: Store, clock: seq<Nanos>)
    requires |clock| >= |s.queue|
    ensures var left := Pass(s, clock).queue; var checks := |s.queue| - |left|;
      && 0 <= checks
      && left == s.queue[checks..]
      && (forall k :: 0 <= k < checks ==> s.queue[k].timestamp + 2_000_000_000 <= clock[k])
      && (left != [] ==> clock[checks] < left[0].timestamp + 2_000_000_000)
      && |Pass(s, clock).deleted| == |s.deleted| + checks
      && Pass(s, clock).deleted[..|s.deleted|] == s.deleted
      && (forall k :: 0 <= k < checks ==> Pass(s, clock).deleted[|s.deleted| + k] == ByPass(s.queue[k], clock[k]))
    decreases |s.queue|
  {
    if s.queue == [] || !s.queue[0].ToFree(clock[0]) {
    } else {
      var first := DeleteFront(s, ByPass(s.queue[0], clock[0]));
      PassTakesPrefix(first, clock[1..]);
      assert first.deleted[..|s.deleted|] == s.deleted && first.deleted[|s.deleted|] == ByPass(s.queue[0], clock[0]);
      assert Pass(s, clock).deleted[..|first.deleted|] == first.deleted;
      assert Pass(s, clock).deleted[..|s.deleted|] == first.deleted[..|s.deleted|];
    }
  }

  /** After a pass no entry is left that had already expired at the pass's last check,
      anywhere in the queue. */
  lemma PassLeavesNoneExpired(s: Store, clock: seq<Nanos>, since: Nanos)
    requires Inv(s, since) && |clock| >= |s.queue|
    ensures var left := Pass(s, clock).queue;
      && |left| <= |s.queue|
      && forall i :: 0 <= i < |left| ==> clock[|s.queue| - |left|] < left[i].timestamp + 2_000_000_000
  {
    PassTakesPrefix(s, clock);
    var left := Pass(s, clock).queue;
    var checks := |s.queue| - |left|;
    forall i | 0 <= i < |left| ensures clock[checks] < left[i].timestamp + 2_000_000_000 {
      assert left[i] == s.queue[checks + i] && left[0] == s.queue[checks];
      assert s.queue[checks].timestamp <= s.queue[checks + i].timestamp;
    }
  }

  lemma {:induction false} DrainAllInv(s: Store, since: Nanos)
    requires Inv(s, since)
    ensures Inv(DrainAll(s), since) && DrainAll(s).queue == [] && DrainAll(s).received == {}
    decreases |s.queue|
  {
    if s.queue == [] {
    } else {
      DeleteFrontInv(s, AtExit(s.queue[0]), since);
      DrainAllInv(DeleteFront(s, AtExit(s.queue[0])), since);
    }
  }

  ghost predicate Legal(s: Store, ops: seq<Operation>, since: Nanos)
    decreases |ops|
  {
    ops != [] ==> Allowed(s, ops[0], since) && Legal(Apply(s, ops[0]), ops[1..], Latest(ops[0], since))
  }

  function RunAll(s: Store, ops: seq<Operation>, since: Nanos): Store
    requires Legal(s, ops, since)
    decreases |ops|
  {
    if ops == [] then s else RunAll(Apply(s, ops[0]), ops[1..], Latest(ops[0], since))
  }

  function LatestOfAll(ops: seq<Operation>, since: Nanos): Nanos {
    if ops == [] then since else LatestOfAll(ops[1..], Latest(ops[0], since))
  }

  lemma WeakenInv(s: Store, since: Nanos, later: Nanos)
    requires Inv(s, since) && since <= later
    ensures Inv(s, later)
  {
  }

  /** The invariant holds after every legal sequence of operations. */
  lemma {:induction false} RunInv(s: Store, ops: seq<Operation>, since: Nanos)
    requires Inv(s, since) && Legal(s, ops, since)
    ensures Inv(RunAll(s, ops, since), LatestOfAll(ops, since))
    decreases |ops|
  {
    if ops == [] {
    } else {
      var now := Latest(ops[0], since);
      match ops[0] {
        case DelayedFree(ptr, t) => RequestInv(s, ptr, t, since);
        case CleanupPass(clock) => PassInv(s, clock, since); WeakenInv(Pass(s, clock), since, now);
        case FinalDrain => DrainAllInv(s, since);
      }
      RunInv(Apply(s, ops[0]), ops[1..], now);
    }
  }

  /** The executors ever handed to `delayed_free`. */
  function Requested(ops: seq<Operation>): set<ExecutorId> {
    if ops == [] then {}
    else (if ops[0].DelayedFree? then {ops[0].ptr} else {}) + Requested(ops[1..])
  }

  function DeletedIds(s: Store): set<ExecutorId> {
    set i | 0 <= i < |s.deleted| :: s.deleted[i].entry.ptr
  }

  lemma DeleteFrontAccounts(s: Store, how: Deletion)
    requires s.queue != [] && how.entry == s.queue[0] && s.queue[0].ptr in s.received
    ensures var s' := DeleteFront(s, how); s'.received + DeletedIds(s') == s.received + DeletedIds(s)
  {
    var s' := DeleteFront(s, how);
    assert s'.deleted[|s.deleted|] == how;
    forall p | p in DeletedIds(s) ensures p in DeletedIds(s') {
      var i :| 0 <= i < |s.deleted| && s.deleted[i].entry.ptr == p;
      assert s'.deleted[i] == s.deleted[i];
    }
    forall p | p in DeletedIds(s') ensures p in DeletedIds(s) + {s.queue[0].ptr} {
      var i :| 0 <= i < |s'.deleted| && s'.deleted[i].entry.ptr == p;
      assert i < |s.deleted| ==> s'.deleted[i] == s.deleted[i];
    }
  }

  lemma {:induction false} PassAccounts(s: Store, clock: seq<Nanos>, since: Nanos)
    requires Inv(s, since) && |clock| >= |s.queue|
    ensures var s' := Pass(s, clock); s'.received + DeletedIds(s') == s.received + DeletedIds(s)
    decreases |s.queue|
  {
    if s.queue == [] || !s.queue[0].ToFree(clock[0]) {
    } else {
      var how := ByPass(s.queue[0], clock[0]);
      DeleteFrontInv(s, how, since);
      DeleteFrontAccounts(s, how);
      PassAccounts(DeleteFront(s, how), clock[1..], since);
    }
  }

  lemma {:induction false} DrainAllAccounts(s: Store, since: Nanos)
    requires Inv(s, since)
    ensures var s' := DrainAll(s); s'.received + DeletedIds(s') == s.received + DeletedIds(s)
    decreases |s.queue|
  {
    if s.queue == [] {
    } else {
      DeleteFrontInv(s, AtExit(s.queue[0]), since);
      DeleteFrontAccounts(s, AtExit(s.queue[0]));
      DrainAllAccounts(DeleteFront(s, AtExit(s.queue[0])), since);
    }
  }

  /** No executor leaks: after any run, those ever requested are exactly the queued
      and the deleted ones; after a final drain, exactly the deleted ones. */
  lemma {:induction false} NothingLeaks(s: Store, ops: seq<Operation>, since: Nanos)
    requires Inv(s, since) && Legal(s, ops, since)
    ensures var s' := RunAll(s, ops, since);
      s'.received + DeletedIds(s') == s.received + DeletedIds(s) + Requested(ops)
    decreases |ops|
  {
    if ops == [] {
    } else {
      var now := Latest(ops[0], since);
      match ops[0] {
        case DelayedFree(ptr, t) => RequestInv(s, ptr, t, since);
        case CleanupPass(clock) => PassInv(s, clock, since); WeakenInv(Pass(s, clock), since, now); PassAccounts(s, clock, since);
        case FinalDrain => DrainAllInv(s, since); DrainAllAccounts(s, since);
      }
      NothingLeaks(Apply(s, ops[0]), ops[1..], now);
    }
  }

  /** From a distributor that has received nothing: the invariant holds after every legal
      sequence of operations, and what was requested is what is queued or deleted. */
  lemma FromTheStart(ops: seq<Operation>, since: Nanos)
    requires Legal(Empty(), ops, since)
    ensures var s := RunAll(Empty(), ops, since);
      && Inv(s, LatestOfAll(ops, since))
      && s.received + DeletedIds(s) == Requested(ops)
  {
    assert Inv(Empty(), since) && DeletedIds(Empty()) == {};
    RunInv(Empty(), ops, since);
    NothingLeaks(Empty(), ops, since);
  }

  // ----- the grace period over a whole run -----

  /** Operation j is a pass that reads the clock at `d.now`, and the deleted entry was
      queued at first or is the trace of an earlier request. */
  ghost predicate DeletedBy(s: Store, ops: seq<Operation>, d: Deletion, j: nat)
    requires d.ByPass?
  {
    && j < |ops| && ops[j].CleanupPass? && d.now in ops[j].clock
    && (d.entry in s.queue || exists i :: 0 <= i < j && ops[i] == DelayedFree(d.entry.ptr, d.entry.timestamp))
  }

  /** The deletion happened in the run, two seconds or more after its request. */
  ghost predicate InTime(s: Store, ops: seq<Operation>, d: Deletion) {
    d.ByPass? ==> d.entry.timestamp + 2_000_000_000 <= d.now && exists j: nat :: DeletedBy(s, ops, d, j)
  }

  lemma LaterInTime(s: Store, op: Operation, rest: seq<Operation>, d: Deletion)
    requires op.CleanupPass? ==> |op.clock| >= |s.queue|
    requires InTime(Apply(s, op), rest, d)
    requires forall e :: e in Apply(s, op).queue ==> e in s.queue || op == DelayedFree(e.ptr, e.timestamp)
    ensures InTime(s, [op] + rest, d)
  {
    if d.ByPass? {
      var j: nat :| DeletedBy(Apply(s, op), rest, d, j);
      var ops := [op] + rest;
      assert ops[j + 1] == rest[j] && ops[0] == op;
      if d.entry !in Apply(s, op).queue {
        var i :| 0 <= i < j && rest[i] == DelayedFree(d.entry.ptr, d.entry.timestamp);
        assert ops[i + 1] == rest[i];
      }
      assert DeletedBy(s, ops, d, j + 1);
    }
  }

  lemma {:induction false} DrainAllDeletes(s: Store)
    ensures |DrainAll(s).deleted| >= |s.deleted| && DrainAll(s).deleted[..|s.deleted|] == s.deleted
    ensures DrainAll(s).queue == []
    ensures forall k :: |s.deleted| <= k < |DrainAll(s).deleted| ==> DrainAll(s).deleted[k].AtExit?
    decreases |s.queue|
  {
    if s.queue == [] {
    } else {
      var first := DeleteFront(s, AtExit(s.queue[0]));
      DrainAllDeletes(first);
      assert first.deleted[..|s.deleted|] == s.deleted;
      assert DrainAll(s).deleted[..|first.deleted|] == first.deleted;
      assert DrainAll(s).deleted[..|s.deleted|] == first.deleted[..|s.deleted|];
      assert DrainAll(s).deleted[|s.deleted|] == first.deleted[|s.deleted|];
    }
  }

  /** What one operation deletes, and where the entries it leaves come from. */
  lemma StepInTime(s: Store, op: Operation, rest: seq<Operation>)
    requires op.CleanupPass? ==> |op.clock| >= |s.queue|
    ensures var s' := Apply(s, op);
      && |s'.deleted| >= |s.deleted| && s'.deleted[..|s.deleted|] == s.deleted
      && (forall k :: |s.deleted| <= k < |s'.deleted| ==> InTime(s, [op] + rest, s'.deleted[k]))
      && forall e :: e in s'.queue ==> e in s.queue || op == DelayedFree(e.ptr, e.timestamp)
  {
    match op {
      case DelayedFree(_, _) =>
      case FinalDrain => DrainAllDeletes(s);
      case CleanupPass(clock) =>
        PassTakesPrefix(s, clock);
        var s' := Pass(s, clock);
        forall k | |s.deleted| <= k < |s'.deleted| ensures InTime(s, [op] + rest, s'.deleted[k]) {
          assert s'.deleted[k] == ByPass(s.queue[k - |s.deleted|], clock[k - |s.deleted|]);
          assert DeletedBy(s, [op] + rest, s'.deleted[k], 0);
        }
    }
  }

  lemma {:induction false} RunInTime(s: Store, ops: seq<Operation>, since: Nanos)
    requires Legal(s, ops, since)
    ensures var r := RunAll(s, ops, since);
      && |r.deleted| >= |s.deleted| && r.deleted[..|s.deleted|] == s.deleted
      && forall k :: |s.deleted| <= k < |r.deleted| ==> InTime(s, ops, r.deleted[k])
    decreases |ops|
  {
    if ops == [] {
    } else {
      var s', r := Apply(s, ops[0]), RunAll(s, ops, since);
      assert [ops[0]] + ops[1..] == ops;
      StepInTime(s, ops[0], ops[1..]);
      RunInTime(s', ops[1..], Latest(ops[0], since));
      assert r.deleted[..|s.deleted|] == s'.deleted[..|s.deleted|];
      forall k | |s.deleted| <= k < |r.deleted| ensures InTime(s, ops, r.deleted[k]) {
        if k < |s'.deleted| {
          assert r.deleted[k] == s'.deleted[k];
        } else {
          LaterInTime(s, ops[0], ops[1..], r.deleted[k]);
        }
      }
    }
  }

  /** Operation i requests the deletion, and the pass at operation j performs it two
      seconds or more later. */
  predicate RequestedAndDeleted(ops: seq<Operation>, d: Deletion, i: int, j: int) {
    && 0 <= i < j < |ops| && ops[i].DelayedFree? && ops[j].CleanupPass? && d.ByPass?
    && ops[i].ptr == d.entry.ptr
    && d.now in ops[j].clock
    && ops[i].now + 2_000_000_000 <= d.now
  }

  /** The grace period, over every legal run of a distributor that has received nothing: a
      pass that reads the clock at `now` deletes only executors whose `delayed_free` came
      earlier in the run, with a clock reading at least two seconds before `now`. */
  lemma DeletedAfterGrace(ops: seq<Operation>, since: Nanos)
    requires Legal(Empty(), ops, since)
    ensures var r := RunAll(Empty(), ops, since);
      forall k :: 0 <= k < |r.deleted| && r.deleted[k].ByPass? ==>
        exists i, j :: RequestedAndDeleted(ops, r.deleted[k], i, j)
  {
    RunInTime(Empty(), ops, since);
    var r := RunAll(Empty(), ops, since);
    forall k | 0 <= k < |r.deleted| && r.deleted[k].ByPass?
      ensures exists i, j :: RequestedAndDeleted(ops, r.deleted[k], i, j)
    {
      assert InTime(Empty(), ops, r.deleted[k]);
      var j: nat :| DeletedBy(Empty(), ops, r.deleted[k], j);
      var i :| 0 <= i < j && ops[i] == DelayedFree(r.deleted[k].entry.ptr, r.deleted[k].entry.timestamp);
      assert RequestedAndDeleted(ops, r.deleted[k], i, j);
    }
  }

  /** The other side, after any legal run: what a pass leaves was requested less than two
      seconds before the pass read the clock for the last time. */
  lemma LeftWithinGrace(ops: seq<Operation>, since: Nanos, clock: seq<Nanos>)
    requires Legal(Empty(), ops, since)
    requires |clock| >= |RunAll(Empty(), ops, since).queue|
    ensures var s := RunAll(Empty(), ops, since);
      var left := Pass(s, clock).queue;
      && |left| <= |s.queue|
      && forall i :: 0 <= i < |left| ==> clock[|s.queue| - |left|] < left[i].timestamp + 2_000_000_000
  {
    FromTheStart(ops, since);
    PassLeavesNoneExpired(RunAll(Empty(), ops, since), clock, LatestOfAll(ops, since));
  }

  // ----- the class -----

  class EventDistributor {
    var closedReceived: set<ExecutorId>
    var cleanupQueue: seq<CleanupEntry>
    ghost var deleted: seq<Deletion>

    ghost function View(): Store
      reads this
    {
      Store(closedReceived, cleanupQueue, deleted)
    }

    constructor ()
      ensures View() == Empty()
    {
      closedReceived, cleanupQueue, deleted := {}, [], [];
    }

    method DelayedFree(ptr: ExecutorId, now: Nanos) returns (callExecute: bool)
      modifies this
      ensures View() == Request(old(View()), ptr, now)
      ensures callExecute <==> ptr !in old(closedReceived)
    {
      callExecute := false;
      if ptr !in closedReceived {
        callExecute := true;
        closedReceived := closedReceived + {ptr};
        cleanupQueue := cleanupQueue + [CleanupEntry(ptr, now)];
      }
    }

    method RemoveAndFreeFront(ghost how: Deletion)
      requires cleanupQueue != []
      modifies this
      ensures View() == DeleteFront(old(View()), how)
    {
      closedReceived := closedReceived - {cleanupQueue[0].ptr};
      deleted := deleted + [how];
      cleanupQueue := cleanupQueue[1..];
    }

    method CleanupPass(clock: seq<Nanos>)
      requires |clock| >= |cleanupQueue|
      modifies this
      ensures View() == Pass(old(View()), clock)
    {
      var k := 0;
      while cleanupQueue != [] && cleanupQueue[0].ToFree(clock[k])
        invariant 0 <= k <= |clock| && |clock| - k >= |cleanupQueue|
        invariant Pass(View(), clock[k..]) == Pass(old(View()), clock)
        decreases |cleanupQueue|
      {
        assert clock[k..][1..] == clock[k + 1..];
        RemoveAndFreeFront(ByPass(cleanupQueue[0], clock[k]));
        k := k + 1;
      }
    }

    method FinalDrain()
      modifies this
      ensures View() == DrainAll(old(View()))
    {
      while cleanupQueue != []
        invariant DrainAll(View()) == DrainAll(old(View()))
        decreases |cleanupQueue|
      {
        RemoveAndFreeFront(AtExit(cleanupQueue[0]));
      }
    }
  }
}
