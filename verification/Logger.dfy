/** The binary logger: one logging thread and the flusher share a buffer. Every access to
    shared memory is a step; the buffer is copied and written out byte by byte. */
module Logger {
  import opened Basics

  type Entry = seq<Byte>

  datatype Owner = Nobody | Producer | Flusher

  /** Where a thread stands in `logger_list::flush` and the `logger::flush` it calls.
      `upto` is ghost: the number of entries in front of `current`. The write position is
      read three times, and the logging thread may advance it in between. */
  datatype FlushPc =
    | Lock
    | AssertOrder
    | Test
    | Capture
    | Write(current: nat, at: nat, upto: nat)
    | Publish(current: nat, upto: nat)
    | Unlock
    | UnlockList

  /** Where the logging thread stands in `logger::log` and `logger::replinish`. */
  datatype ProducerPc =
    | Idle
    | Check(entry: Entry)
    | Replinish(entry: Entry)
    | LockInit(entry: Entry)
    | Init(entry: Entry)
    | UnlockInit(entry: Entry)
    | LockList(entry: Entry)
    | Flushing(entry: Entry, pc: FlushPc)
    | AssertFlushed(entry: Entry)
    | LockReset(entry: Entry)
    | ResetWrite(entry: Entry)
    | ResetRead(entry: Entry)
    | UnlockReset(entry: Entry)
    | Copy(entry: Entry, count: nat)

  datatype FlusherPc = Resting | Draining(pc: FlushPc)

  /** Shared memory. `logged` and `done` are ghost: the entries published so far, and how
      many of them lie in front of `nextRead`. Positions count from the buffer's start, and
      all of them are 0 before there is a buffer. */
  datatype Memory = Memory(
    buffer: seq<Byte>, nextWrite: nat, nextRead: nat, file: seq<Byte>,
    mutex: Owner, list: Owner,
    logged: seq<Entry>, done: nat)

  datatype State = State(m: Memory, producer: ProducerPc, flusher: FlusherPc)

  function Concat(entries: seq<Entry>): seq<Byte> {
    if entries == [] then [] else Concat(entries[..|entries| - 1]) + entries[|entries| - 1]
  }

  // ----- the steps -----

  function Start(): State {
    State(Memory([], 0, 0, [], Nobody, Nobody, [], 0), Idle, Resting)
  }

  predicate FlushEnabled(m: Memory, pc: FlushPc) {
    pc.Lock? ==> m.mutex == Nobody
  }

  /** One step of the flush routine by `who`; the last one leaves it. */
  function FlushStep(m: Memory, who: Owner, pc: FlushPc): (Memory, Option<FlushPc>) {
    match pc
    case Lock => (m.(mutex := who), Some(AssertOrder))
    case AssertOrder => (m, Some(Test))
    case Test => (m, Some(if m.nextRead == m.nextWrite then Unlock else Capture))
    case Capture => (m, Some(Write(m.nextWrite, m.nextRead, |m.logged|)))
    case Write(current, at, upto) =>
      if at < current && at < |m.buffer| then (m.(file := m.file + [m.buffer[at]]), Some(Write(current, at + 1, upto)))
      else (m, Some(Publish(current, upto)))
    case Publish(current, upto) => (m.(nextRead := current, done := upto), Some(Unlock))
    case Unlock => (m.(mutex := Nobody), Some(UnlockList))
    case UnlockList => (m.(list := Nobody), None)
  }

  predicate ProducerEnabled(s: State) {
    match s.producer
    case LockInit(_) => s.m.mutex == Nobody
    case LockList(_) => s.m.list == Nobody
    case Flushing(_, pc) => FlushEnabled(s.m, pc)
    case LockReset(_) => s.m.mutex == Nobody
    case _ => true
  }

  /** One step of the logging thread; `entry` is what it logs when it is idle, and `block`
      the contents of the buffer it is given. */
  function ProducerStep(s: State, entry: Entry, block: seq<Byte>): State {
    var m := s.m;
    match s.producer
    case Idle => s.(producer := Check(entry))
    case Check(e) => s.(producer := if m.nextWrite + |e| >= |m.buffer| then Replinish(e) else Copy(e, 0))
    case Replinish(e) => s.(producer := if m.buffer == [] then LockInit(e) else LockList(e))
    case LockInit(e) => s.(m := m.(mutex := Producer), producer := Init(e))
    case Init(e) => s.(m := m.(buffer := block, nextWrite := 0, nextRead := 0), producer := UnlockInit(e))
    case UnlockInit(e) => s.(m := m.(mutex := Nobody), producer := Copy(e, 0))
    case LockList(e) => s.(m := m.(list := Producer), producer := Flushing(e, Lock))
    case Flushing(e, pc) =>
      var (next, pc') := FlushStep(m, Producer, pc);
      s.(m := next, producer := match pc' case None => AssertFlushed(e) case Some(p) => Flushing(e, p))
    case AssertFlushed(e) => s.(producer := LockReset(e))
    case LockReset(e) => s.(m := m.(mutex := Producer), producer := ResetWrite(e))
    case ResetWrite(e) => s.(m := m.(nextWrite := 0), producer := ResetRead(e))
    case ResetRead(e) => s.(m := m.(nextRead := 0), producer := UnlockReset(e))
    case UnlockReset(e) => s.(m := m.(mutex := Nobody), producer := Copy(e, 0))
    case Copy(e, k) =>
      if k < |e| then
        s.(m := m.(buffer := if m.nextWrite + k < |m.buffer| then m.buffer[m.nextWrite + k := e[k]] else m.buffer),
           producer := Copy(e, k + 1))
      else s.(m := m.(nextWrite := m.nextWrite + |e|, logged := m.logged + [e]), producer := Idle)
  }

  predicate FlusherEnabled(s: State) {
    match s.flusher
    case Resting => s.m.list == Nobody
    case Draining(pc) => FlushEnabled(s.m, pc)
  }

  function FlusherStep(s: State): State {
    match s.flusher
    case Resting => s.(m := s.m.(list := Flusher), flusher := Draining(Lock))
    case Draining(pc) =>
      var (next, pc') := FlushStep(s.m, Flusher, pc);
      s.(m := next, flusher := match pc' case None => Resting case Some(p) => Draining(p))
  }

  /** Entries are not empty and not larger than the buffer, which has `size` bytes. */
  ghost predicate Next(size: nat, s: State, s': State) {
    || (FlusherEnabled(s) && s' == FlusherStep(s))
    || (ProducerEnabled(s) && exists e: Entry, block: seq<Byte> ::
          0 < |e| <= size && |block| == size && s' == ProducerStep(s, e, block))
  }

  ghost predicate Run(size: nat, run: seq<State>) {
    && run != [] && run[0] == Start()
    && forall i :: 0 <= i < |run| - 1 ==> Next(size, run[i], run[i + 1])
  }

  // ----- the invariant -----

  predicate InFlush(pc: FlushPc) {
    !pc.Lock? && !pc.UnlockList?
  }

  predicate ProducerLocks(p: ProducerPc) {
    p.Init? || p.UnlockInit? || p.ResetWrite? || p.ResetRead? || p.UnlockReset? || (p.Flushing? && InFlush(p.pc))
  }

  predicate Locks(s: State) {
    && (s.m.mutex == Producer <==> ProducerLocks(s.producer))
    && (s.m.mutex == Flusher <==> s.flusher.Draining? && InFlush(s.flusher.pc))
    && (s.m.list == Producer <==> s.producer.Flushing?)
    && (s.m.list == Flusher <==> s.flusher.Draining?)
  }

  /** How far the file has been written, by the thread that is writing if there is one. */
  function Written(m: Memory, pc: FlushPc): nat {
    match pc
    case Write(_, at, _) => at
    case Publish(current, _) => current
    case _ => m.nextRead
  }

  function WrittenTo(s: State): nat {
    if s.producer.Flushing? then Written(s.m, s.producer.pc)
    else if s.flusher.Draining? then Written(s.m, s.flusher.pc)
    else s.m.nextRead
  }

  /** What lies between the read and the write position are the entries not yet done. */
  predicate Holds(m: Memory) {
    && m.nextRead <= m.nextWrite <= |m.buffer| && m.done <= |m.logged|
    && m.buffer[m.nextRead..m.nextWrite] == Concat(m.logged[m.done..])
  }

  predicate FileIs(m: Memory, written: nat) {
    && m.nextRead <= written <= m.nextWrite <= |m.buffer| && m.done <= |m.logged|
    && m.file == Concat(m.logged[..m.done]) + m.buffer[m.nextRead..written]
  }

  /** A write ends at an entry boundary. */
  predicate AtBoundary(m: Memory, current: nat, upto: nat) {
    && m.nextRead < current <= m.nextWrite <= |m.buffer| && m.done <= upto <= |m.logged|
    && m.buffer[m.nextRead..current] == Concat(m.logged[m.done..upto])
  }

  predicate FlushOk(m: Memory, pc: FlushPc) {
    match pc
    case Capture => m.nextRead < m.nextWrite
    case Write(current, at, upto) => at <= current && AtBoundary(m, current, upto)
    case Publish(current, upto) => AtBoundary(m, current, upto)
    case _ => true
  }

  predicate Flushed(m: Memory) {
    m.nextRead == m.nextWrite && m.done == |m.logged|
  }

  /** What the logging thread knows when it is the one flushing. */
  predicate OwnFlush(m: Memory, pc: FlushPc) {
    match pc
    case Write(current, _, upto) => current == m.nextWrite && upto == |m.logged|
    case Publish(current, upto) => current == m.nextWrite && upto == |m.logged|
    case Unlock => Flushed(m)
    case UnlockList => Flushed(m)
    case _ => true
  }

  predicate ProducerOk(size: nat, m: Memory, p: ProducerPc) {
    && (m.buffer == [] || |m.buffer| == size)
    && (!p.Idle? ==> 0 < |p.entry| <= size)
    && match p
       case LockInit(_) => m.buffer == []
       case Init(_) => m.buffer == []
       case UnlockInit(_) => Flushed(m) && m.nextWrite == 0 && |m.buffer| == size
       case LockList(_) => |m.buffer| == size
       case Flushing(_, pc) => OwnFlush(m, pc) && |m.buffer| == size
       case AssertFlushed(_) => Flushed(m) && |m.buffer| == size
       case LockReset(_) => Flushed(m) && |m.buffer| == size
       case ResetWrite(_) => Flushed(m) && |m.buffer| == size
       case ResetRead(_) => m.nextWrite == 0 && m.done == |m.logged| && |m.buffer| == size
       case UnlockReset(_) => Flushed(m) && m.nextWrite == 0 && |m.buffer| == size
       case Copy(e, k) =>
         && k <= |e| && m.nextWrite + |e| <= |m.buffer|
         && (m.nextWrite + |e| < |m.buffer| || m.nextWrite == 0)
         && m.buffer[m.nextWrite..m.nextWrite + k] == e[..k]
       case _ => true
  }

  /** Between the two assignments of the reset, under the mutex, the positions are crossed. */
  predicate Crossed(s: State) {
    s.producer.ResetRead?
  }

  predicate NonEmpty(entries: seq<Entry>) {
    forall i :: 0 <= i < |entries| ==> entries[i] != []
  }

  predicate DataOk(s: State) {
    NonEmpty(s.m.logged) &&
    if Crossed(s) then s.m.file == Concat(s.m.logged)
    else Holds(s.m) && FileIs(s.m, WrittenTo(s))
  }

  predicate Inv(size: nat, s: State) {
    && Locks(s) && DataOk(s) && ProducerOk(size, s.m, s.producer)
    && (s.producer.Flushing? ==> FlushOk(s.m, s.producer.pc))
    && (s.flusher.Draining? ==> FlushOk(s.m, s.flusher.pc))
  }

  // ----- the steps keep it -----

  lemma {:induction false} ConcatSplit(a: seq<Entry>, b: seq<Entry>)
    ensures Concat(a + b) == Concat(a) + Concat(b)
  {
    if b == [] {
      assert a + b == a;
    } else {
      ConcatSplit(a, b[..|b| - 1]);
      assert (a + b)[..|a + b| - 1] == a + b[..|b| - 1];
      Associate(Concat(a), Concat(b[..|b| - 1]), b[|b| - 1]);
    }
  }

  lemma ConcatPush(entries: seq<Entry>, from: nat, e: Entry)
    requires from <= |entries|
    ensures Concat((entries + [e])[from..]) == Concat(entries[from..]) + e
    ensures (entries + [e])[..from] == entries[..from]
  {
    var t := (entries + [e])[from..];
    assert t[..|t| - 1] == entries[from..] && t[|t| - 1] == e;
  }

  lemma Cancel(a: seq<Byte>, b: seq<Byte>, c: seq<Byte>)
    requires a + b == a + c
    ensures b == c
  {
    assert (a + b)[|a|..] == b && (a + c)[|a|..] == c;
  }

  lemma PublishFile(m: Memory, current: nat, upto: nat)
    requires FileIs(m, current) && AtBoundary(m, current, upto)
    ensures m.file == Concat(m.logged[..upto])
  {
    assert m.logged[..upto] == m.logged[..m.done] + m.logged[m.done..upto];
    ConcatSplit(m.logged[..m.done], m.logged[m.done..upto]);
  }

  lemma PublishRest(m: Memory, current: nat, upto: nat)
    requires Holds(m) && AtBoundary(m, current, upto)
    ensures m.buffer[current..m.nextWrite] == Concat(m.logged[upto..])
  {
    assert m.logged[m.done..] == m.logged[m.done..upto] + m.logged[upto..];
    ConcatSplit(m.logged[m.done..upto], m.logged[upto..]);
    assert m.buffer[m.nextRead..m.nextWrite] == m.buffer[m.nextRead..current] + m.buffer[current..m.nextWrite];
    Cancel(m.buffer[m.nextRead..current], m.buffer[current..m.nextWrite], Concat(m.logged[upto..]));
  }

  /** Publishing moves the entries written out from the buffer to the file. */
  lemma PublishData(m: Memory, current: nat, upto: nat)
    requires Holds(m) && FileIs(m, current) && AtBoundary(m, current, upto)
    ensures Holds(m.(nextRead := current, done := upto)) && FileIs(m.(nextRead := current, done := upto), current)
  {
    PublishFile(m, current, upto);
    PublishRest(m, current, upto);
    assert m.buffer[current..current] == [];
  }

  lemma ConcatNonEmpty(entries: seq<Entry>)
    requires NonEmpty(entries)
    ensures entries != [] ==> Concat(entries) != []
  {
  }

  /** Equal positions mean that nothing is left. */
  lemma NothingLeft(m: Memory)
    requires Holds(m) && NonEmpty(m.logged) && m.nextRead == m.nextWrite
    ensures m.done == |m.logged|
  {
    ConcatNonEmpty(m.logged[m.done..]);
  }

  /** What a step of the flush routine keeps, for whichever thread takes it. */
  predicate FlushInv(m: Memory, pc: FlushPc) {
    Holds(m) && NonEmpty(m.logged) && FileIs(m, Written(m, pc)) && FlushOk(m, pc)
  }

  lemma WriteByte(m: Memory, at: nat)
    requires FileIs(m, at) && at < m.nextWrite
    ensures FileIs(m.(file := m.file + [m.buffer[at]]), at + 1)
  {
    assert m.buffer[m.nextRead..at + 1] == m.buffer[m.nextRead..at] + [m.buffer[at]];
  }

  lemma CaptureData(m: Memory)
    requires Holds(m) && m.nextRead < m.nextWrite
    ensures AtBoundary(m, m.nextWrite, |m.logged|)
  {
    assert m.logged[m.done..] == m.logged[m.done..|m.logged|];
  }

  lemma CaptureInv(m: Memory)
    requires FlushInv(m, Capture)
    ensures FlushInv(m, Write(m.nextWrite, m.nextRead, |m.logged|))
  {
    CaptureData(m);
  }

  lemma WriteInv(m: Memory, current: nat, at: nat, upto: nat)
    requires FlushInv(m, Write(current, at, upto)) && at < current
    ensures FlushInv(m.(file := m.file + [m.buffer[at]]), Write(current, at + 1, upto))
  {
    WriteByte(m, at);
  }

  lemma WriteEnds(m: Memory, current: nat, at: nat, upto: nat)
    requires FlushInv(m, Write(current, at, upto)) && at >= current
    ensures FlushInv(m, Publish(current, upto))
  {
  }

  lemma PublishInv(m: Memory, current: nat, upto: nat)
    requires FlushInv(m, Publish(current, upto))
    ensures FlushInv(m.(nextRead := current, done := upto), Unlock)
  {
    PublishData(m, current, upto);
  }

  lemma FlushStepInv(m: Memory, who: Owner, pc: FlushPc)
    requires FlushInv(m, pc)
    ensures var (next, pc') := FlushStep(m, who, pc);
      FlushInv(next, if pc'.Some? then pc'.value else UnlockList)
  {
    match pc
    case Capture =>
      CaptureInv(m);
    case Write(current, at, upto) =>
      if at < current {
        WriteInv(m, current, at, upto);
      } else {
        WriteEnds(m, current, at, upto);
      }
    case Publish(current, upto) =>
      PublishInv(m, current, upto);
    case _ =>
  }

  lemma OwnFlushStep(m: Memory, pc: FlushPc)
    requires FlushInv(m, pc) && OwnFlush(m, pc)
    ensures var (next, pc') := FlushStep(m, Producer, pc);
      OwnFlush(next, if pc'.Some? then pc'.value else UnlockList)
  {
    if pc.Test? && m.nextRead == m.nextWrite {
      NothingLeft(m);
    }
  }

  lemma FlusherStepLocks(s: State)
    requires Locks(s) && FlusherEnabled(s)
    ensures Locks(FlusherStep(s))
  {
  }

  /** A step of the flusher leaves the buffer and what is logged; it moves the read position
      only under its mutex, and not when there is nothing to flush. */
  lemma FlusherLeaves(s: State)
    requires Locks(s) && FlusherEnabled(s) && (s.flusher.Draining? ==> FlushOk(s.m, s.flusher.pc))
    ensures var m := FlusherStep(s).m;
      && !s.producer.Flushing?
      && m.buffer == s.m.buffer && m.nextWrite == s.m.nextWrite && m.logged == s.m.logged
      && (Flushed(s.m) || ProducerLocks(s.producer) ==> m.nextRead == s.m.nextRead && m.done == s.m.done)
  {
  }

  /** The flusher does not disturb what the logging thread knows. */
  lemma FlusherKeepsProducer(size: nat, s: State)
    requires Locks(s) && FlusherEnabled(s) && (s.flusher.Draining? ==> FlushOk(s.m, s.flusher.pc))
    requires ProducerOk(size, s.m, s.producer)
    ensures ProducerOk(size, FlusherStep(s).m, s.producer)
  {
    FlusherLeaves(s);
  }

  lemma FlusherStepData(size: nat, s: State)
    requires Inv(size, s) && FlusherEnabled(s)
    ensures DataOk(FlusherStep(s))
    ensures var t := FlusherStep(s); t.flusher.Draining? ==> FlushOk(t.m, t.flusher.pc)
  {
    if s.flusher.Draining? && InFlush(s.flusher.pc) {
      FlushStepInv(s.m, Flusher, s.flusher.pc);
    }
  }

  lemma FlusherStepInv(size: nat, s: State)
    requires Inv(size, s) && FlusherEnabled(s)
    ensures Inv(size, FlusherStep(s))
  {
    FlusherStepLocks(s);
    FlusherKeepsProducer(size, s);
    FlusherStepData(size, s);
  }

  lemma ProducerStepLocks(s: State, e: Entry, block: seq<Byte>)
    requires Locks(s) && ProducerEnabled(s)
    ensures Locks(ProducerStep(s, e, block))
  {
  }

  lemma ProducerFlushInv(size: nat, s: State, e: Entry, block: seq<Byte>)
    requires Inv(size, s) && ProducerEnabled(s) && s.producer.Flushing?
    ensures Inv(size, ProducerStep(s, e, block))
  {
    ProducerStepLocks(s, e, block);
    FlushStepInv(s.m, Producer, s.producer.pc);
    OwnFlushStep(s.m, s.producer.pc);
  }

  /** A byte behind the write position is not part of what is logged or written. */
  lemma CopyByteData(m: Memory, at: nat, b: Byte)
    requires Holds(m) && m.nextWrite <= at < |m.buffer|
    ensures var m' := m.(buffer := m.buffer[at := b]);
      && Holds(m')
      && (forall written :: FileIs(m, written) ==> FileIs(m', written))
      && (forall current, upto :: AtBoundary(m, current, upto) ==> AtBoundary(m', current, upto))
  {
    var m' := m.(buffer := m.buffer[at := b]);
    assert forall i, j :: 0 <= i <= j <= m.nextWrite ==> m'.buffer[i..j] == m.buffer[i..j];
  }

  /** Copying a byte behind the write position. */
  lemma CopyByteOk(size: nat, m: Memory, e: Entry, k: nat)
    requires ProducerOk(size, m, Copy(e, k)) && k < |e|
    ensures ProducerOk(size, m.(buffer := m.buffer[m.nextWrite + k := e[k]]), Copy(e, k + 1))
  {
    var m' := m.(buffer := m.buffer[m.nextWrite + k := e[k]]);
    assert m'.buffer[m.nextWrite..m.nextWrite + k + 1] == m.buffer[m.nextWrite..m.nextWrite + k] + [e[k]];
  }

  lemma CopyByteInv(size: nat, s: State, e: Entry, block: seq<Byte>)
    requires Inv(size, s) && s.producer.Copy? && s.producer.count < |s.producer.entry|
    ensures Inv(size, ProducerStep(s, e, block))
  {
    var m, k := s.m, s.producer.count;
    ProducerStepLocks(s, e, block);
    CopyByteData(m, m.nextWrite + k, s.producer.entry[k]);
    CopyByteOk(size, m, s.producer.entry, k);
  }

  lemma PublishEntryData(m: Memory, e: Entry)
    requires Holds(m) && NonEmpty(m.logged) && e != [] && m.nextWrite + |e| <= |m.buffer|
    requires m.buffer[m.nextWrite..m.nextWrite + |e|] == e
    ensures var m' := m.(nextWrite := m.nextWrite + |e|, logged := m.logged + [e]);
      && Holds(m') && NonEmpty(m'.logged)
      && (forall written :: FileIs(m, written) ==> FileIs(m', written))
      && (forall current, upto :: AtBoundary(m, current, upto) ==> AtBoundary(m', current, upto))
  {
    ConcatPush(m.logged, m.done, e);
    var m' := m.(nextWrite := m.nextWrite + |e|, logged := m.logged + [e]);
    assert m.buffer[m.nextRead..m'.nextWrite] == m.buffer[m.nextRead..m.nextWrite] + e;
    forall upto: nat | m.done <= upto <= |m.logged| ensures m'.logged[m.done..upto] == m.logged[m.done..upto] {
    }
  }

  lemma PublishEntryInv(size: nat, s: State, e: Entry, block: seq<Byte>)
    requires Inv(size, s) && s.producer.Copy? && s.producer.count == |s.producer.entry|
    ensures Inv(size, ProducerStep(s, e, block))
  {
    ProducerStepLocks(s, e, block);
    PublishEntryData(s.m, s.producer.entry);
  }

  lemma ResetInv(size: nat, s: State, e: Entry, block: seq<Byte>)
    requires Inv(size, s) && (s.producer.ResetWrite? || s.producer.ResetRead?)
    ensures Inv(size, ProducerStep(s, e, block))
  {
    ProducerStepLocks(s, e, block);
    assert s.m.logged[..|s.m.logged|] == s.m.logged && s.m.logged[|s.m.logged|..] == [];
  }

  lemma InitInv(size: nat, s: State, e: Entry, block: seq<Byte>)
    requires Inv(size, s) && s.producer.Init? && |block| == size
    ensures Inv(size, ProducerStep(s, e, block))
  {
    ProducerStepLocks(s, e, block);
    NothingLeft(s.m);
    assert s.m.logged[|s.m.logged|..] == [];
  }

  /** Steps that leave shared memory alone. */
  predicate Looks(p: ProducerPc) {
    p.Idle? || p.Check? || p.Replinish? || p.AssertFlushed?
  }

  lemma LookInv(size: nat, s: State, e: Entry, block: seq<Byte>)
    requires Inv(size, s) && 0 < |e| <= size && Looks(s.producer)
    ensures Inv(size, ProducerStep(s, e, block))
  {
    ProducerStepLocks(s, e, block);
    assert ProducerStep(s, e, block).m == s.m;
  }

  /** Steps that take or give back one of the two locks. */
  predicate LocksOrUnlocks(p: ProducerPc) {
    p.LockInit? || p.UnlockInit? || p.LockList? || p.LockReset? || p.UnlockReset?
  }

  lemma LockStepInv(size: nat, s: State, e: Entry, block: seq<Byte>)
    requires Inv(size, s) && ProducerEnabled(s) && LocksOrUnlocks(s.producer)
    ensures Inv(size, ProducerStep(s, e, block))
  {
    ProducerStepLocks(s, e, block);
    var m, m' := s.m, ProducerStep(s, e, block).m;
    assert m' == m.(mutex := m'.mutex, list := m'.list);
  }

  lemma ProducerStepInv(size: nat, s: State, e: Entry, block: seq<Byte>)
    requires Inv(size, s) && ProducerEnabled(s) && 0 < |e| <= size && |block| == size
    ensures Inv(size, ProducerStep(s, e, block))
  {
    match s.producer
    case Flushing(_, _) => ProducerFlushInv(size, s, e, block);
    case Copy(entry, k) =>
      if k < |entry| { CopyByteInv(size, s, e, block); } else { PublishEntryInv(size, s, e, block); }
    case ResetWrite(_) => ResetInv(size, s, e, block);
    case ResetRead(_) => ResetInv(size, s, e, block);
    case Init(_) => InitInv(size, s, e, block);
    case _ => if Looks(s.producer) { LookInv(size, s, e, block); } else { LockStepInv(size, s, e, block); }
  }

  lemma StepInv(size: nat, s: State, t: State)
    requires Inv(size, s) && Next(size, s, t)
    ensures Inv(size, t)
  {
    if FlusherEnabled(s) && t == FlusherStep(s) {
      FlusherStepInv(size, s);
    } else {
      var e: Entry, block: seq<Byte> :| 0 < |e| <= size && |block| == size && t == ProducerStep(s, e, block);
      ProducerStepInv(size, s, e, block);
    }
  }

  lemma {:induction false} RunInv(size: nat, run: seq<State>, i: nat)
    requires Run(size, run) && i < |run|
    ensures Inv(size, run[i])
  {
    if i == 0 {
      assert Concat([]) == [];
    } else {
      RunInv(size, run, i - 1);
      assert Next(size, run[i - 1], run[i - 1 + 1]);
      StepInv(size, run[i - 1], run[i]);
    }
  }

  // ----- what it means -----

  /** The bytes in the buffer that are not in the file yet. */
  function Unflushed(s: State): seq<Byte> {
    var from := WrittenTo(s);
    if from <= s.m.nextWrite <= |s.m.buffer| then s.m.buffer[from..s.m.nextWrite] else []
  }

  predicate Writing(s: State) {
    || (s.producer.Flushing? && (s.producer.pc.Write? || s.producer.pc.Publish?))
    || (s.flusher.Draining? && (s.flusher.pc.Write? || s.flusher.pc.Publish?))
  }

  lemma FileAndRest(m: Memory, written: nat)
    requires Holds(m) && FileIs(m, written)
    ensures m.file + m.buffer[written..m.nextWrite] == Concat(m.logged)
  {
    var l := m.logged;
    assert l == l[..m.done] + l[m.done..];
    ConcatSplit(l[..m.done], l[m.done..]);
    assert m.buffer[m.nextRead..m.nextWrite] == m.buffer[m.nextRead..written] + m.buffer[written..m.nextWrite];
  }

  /** In every interleaving the file followed by the unflushed range is what was logged, in
      order: nothing is lost, duplicated or reordered, also across buffer resets. */
  lemma NothingLost(size: nat, run: seq<State>, i: nat)
    requires Run(size, run) && i < |run|
    ensures run[i].m.file + Unflushed(run[i]) == Concat(run[i].m.logged)
  {
    RunInv(size, run, i);
    var s := run[i];
    if !Crossed(s) {
      FileAndRest(s.m, WrittenTo(s));
    } else {
      assert Unflushed(s) == [];
    }
  }

  /** Whenever no thread is writing, the file holds whole entries: none is torn. */
  lemma NothingTorn(size: nat, run: seq<State>, i: nat)
    requires Run(size, run) && i < |run| && !Writing(run[i])
    ensures exists n :: 0 <= n <= |run[i].m.logged| && run[i].m.file == Concat(run[i].m.logged[..n])
  {
    var m := run[i].m;
    RunInv(size, run, i);
    if Crossed(run[i]) {
      assert m.logged[..|m.logged|] == m.logged;
    } else {
      assert m.buffer[m.nextRead..m.nextRead] == [];
      assert m.file == Concat(m.logged[..m.done]);
    }
  }

  predicate AssertsOf(s: State) {
    && (s.producer.AssertFlushed? ==> s.m.nextRead == s.m.nextWrite)
    && (s.producer.Flushing? && s.producer.pc.AssertOrder? ==> s.m.nextWrite >= s.m.nextRead)
    && (s.flusher.Draining? && s.flusher.pc.AssertOrder? ==> s.m.nextWrite >= s.m.nextRead)
  }

  /** An entry being copied fits, and leaves a byte behind it unless it began in front. */
  predicate CopyFits(s: State) {
    s.producer.Copy? ==>
      && s.m.nextWrite + |s.producer.entry| <= |s.m.buffer|
      && (s.m.nextWrite > 0 ==> s.m.nextWrite + |s.producer.entry| < |s.m.buffer|)
  }

  lemma InvAsserts(size: nat, s: State)
    requires Inv(size, s)
    ensures AssertsOf(s) && CopyFits(s)
  {
  }

  /** Both assertions of the source hold where it makes them, and a copy stays inside the
      buffer. */
  lemma AssertionsHold(size: nat, run: seq<State>, i: nat)
    requires Run(size, run) && i < |run|
    ensures AssertsOf(run[i]) && CopyFits(run[i])
  {
    RunInv(size, run, i);
    InvAsserts(size, run[i]);
  }

  /** How far a flush is from its end. */
  function FlushRank(m: Memory, pc: FlushPc): nat {
    match pc
    case Lock => |m.buffer| + 7
    case AssertOrder => |m.buffer| + 6
    case Test => |m.buffer| + 5
    case Capture => |m.buffer| + 4
    case Write(_, at, _) => 3 + if at < |m.buffer| then |m.buffer| - at else 0
    case Publish(_, _) => 2
    case Unlock => 1
    case UnlockList => 0
  }

  /** How far a call of `log` is from its end: the stage it is in, and how far in it. */
  function Rank(s: State): (nat, nat) {
    match s.producer
    case Idle => (0, 0)
    case Check(_) => (12, 0)
    case Replinish(_) => (11, 0)
    case LockInit(_) => (10, 0)
    case Init(_) => (9, 0)
    case UnlockInit(_) => (8, 0)
    case LockList(_) => (10, 0)
    case Flushing(_, pc) => (9, FlushRank(s.m, pc))
    case AssertFlushed(_) => (8, 0)
    case LockReset(_) => (7, 0)
    case ResetWrite(_) => (6, 0)
    case ResetRead(_) => (5, 0)
    case UnlockReset(_) => (4, 0)
    case Copy(e, k) => (3, if k < |e| then |e| - k else 0)
  }

  predicate Lower(a: (nat, nat), b: (nat, nat)) {
    a.0 < b.0 || (a.0 == b.0 && a.1 < b.1)
  }

  /** Every step of a call of `log` brings it nearer to its end, where its entry has been
      logged. */
  lemma ProducerProceeds(s: State, e: Entry, block: seq<Byte>)
    requires !s.producer.Idle?
    ensures var s' := ProducerStep(s, e, block);
      if s'.producer.Idle? then s'.m.logged == s.m.logged + [s.producer.entry]
      else s'.producer.entry == s.producer.entry && s'.m.logged == s.m.logged && Lower(Rank(s'), Rank(s))
  {
  }

  lemma ProducerStarts(s: State, e: Entry, block: seq<Byte>)
    requires s.producer.Idle?
    ensures ProducerEnabled(s) && ProducerStep(s, e, block) == s.(producer := Check(e))
  {
  }

  /** Every step of a flush by the flusher brings it nearer to its end. */
  lemma FlusherProceeds(s: State)
    requires s.flusher.Draining?
    ensures var s' := FlusherStep(s);
      s'.flusher.Resting? || FlushRank(s'.m, s'.flusher.pc) < FlushRank(s.m, s.flusher.pc)
  {
  }

  /** What a flush that began when `n` entries were logged has done so far. */
  predicate FlushesUpTo(m: Memory, pc: FlushPc, n: nat) {
    match pc
    case Write(_, _, upto) => upto >= n
    case Publish(_, upto) => upto >= n
    case Unlock => m.done >= n
    case UnlockList => m.done >= n
    case _ => true
  }

  lemma FlushUpToStep(m: Memory, who: Owner, pc: FlushPc, n: nat)
    requires FlushInv(m, pc) && FlushesUpTo(m, pc, n) && |m.logged| >= n
    ensures var (next, pc') := FlushStep(m, who, pc); FlushesUpTo(next, if pc'.Some? then pc'.value else UnlockList, n)
  {
    if pc.Test? && m.nextRead == m.nextWrite {
      NothingLeft(m);
    }
  }

  /** The two threads never block each other: one of them can always take a step. */
  lemma NoDeadlock(size: nat, run: seq<State>, i: nat)
    requires Run(size, run) && i < |run|
    ensures ProducerEnabled(run[i]) || FlusherEnabled(run[i])
  {
    RunInv(size, run, i);
  }
}
