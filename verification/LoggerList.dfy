/** `logger_list`: any number of loggers, each with a logging thread and a buffer of its
    own, and one flusher; they write into one file under the mutex of the list.

    Every logger is a `Logger.State`, whose `file` is what has been written for it and whose
    `list` says which of its two threads holds the mutex of the list for it. */
module LoggerList {
  import opened Basics
  import opened Logger

  /** An entry and the logger it was logged with. */
  datatype Tagged = Tagged(logger: nat, entry: Entry)

  /** Who holds the mutex of the list: the logging thread of a logger, or the flusher, which
      goes through the loggers in the order of an unordered set. */
  datatype Holder = Free | LoggingThread(logger: nat) | TheFlusher(left: set<nat>, now: Option<nat>)

  /** `written` is ghost: the entries whose bytes have all been written and are no longer in
      their buffer, in the order in which they were written. */
  datatype System = System(loggers: seq<State>, holder: Holder, file: seq<Byte>, written: seq<Tagged>)

  // ----- the steps -----

  function TagAll(i: nat, entries: seq<Entry>): (r: seq<Tagged>)
    ensures |r| == |entries|
  {
    if entries == [] then [] else TagAll(i, entries[..|entries| - 1]) + [Tagged(i, entries[|entries| - 1])]
  }

  /** The entries of a logger that are in the file and no longer in its buffer. */
  function DoneEntries(c: State): seq<Entry> {
    if c.m.done <= |c.m.logged| then c.m.logged[..c.m.done] else []
  }

  /** What one step of a logger writes. */
  function NewBytes(c: State, c': State): seq<Byte> {
    if |c.m.file| <= |c'.m.file| then c'.m.file[|c.m.file|..] else []
  }

  /** The entries that one step of a logger is done with. */
  function NewlyDone(c: State, c': State): seq<Entry> {
    if c.m.done <= c'.m.done <= |c'.m.logged| then c'.m.logged[c.m.done..c'.m.done] else []
  }

  /** Logger `i` has taken a step to `c'`. */
  function Moved(s: System, i: nat, c': State, holder: Holder): System
    requires i < |s.loggers|
  {
    var c := s.loggers[i];
    System(s.loggers[i := c'], holder, s.file + NewBytes(c, c'), s.written + TagAll(i, NewlyDone(c, c')))
  }

  /** The mutex of the list after a step of logging thread `i`. */
  function HolderAfter(s: System, i: nat, c': State): Holder
    requires i < |s.loggers|
  {
    if c'.m.list == Producer then LoggingThread(i)
    else if s.loggers[i].m.list == Producer then Free
    else s.holder
  }

  /** A step of the logging thread of logger `i`, which waits for the mutex of the list. */
  ghost predicate LogsWith(size: nat, s: System, s': System, i: nat, e: Entry, block: seq<Byte>) {
    && i < |s.loggers| && ProducerEnabled(s.loggers[i])
    && (s.loggers[i].producer.LockList? ==> s.holder.Free?)
    && 0 < |e| <= size && |block| == size
    && var c' := ProducerStep(s.loggers[i], e, block);
       s' == Moved(s, i, c', HolderAfter(s, i, c'))
  }

  ghost predicate Logs(size: nat, s: System, s': System, i: nat) {
    exists e: Entry, block: seq<Byte> :: LogsWith(size, s, s', i, e, block)
  }

  function HolderAfterFlush(s: System, c': State): Holder
    requires s.holder.TheFlusher?
  {
    if c'.flusher.Resting? then s.holder.(now := None) else s.holder
  }

  /** A step of the flusher inside the flush of logger `i`; the last one leaves it. */
  ghost predicate Flushes(s: System, s': System, i: nat) {
    && i < |s.loggers| && s.holder.TheFlusher? && s.holder.now == Some(i) && FlusherEnabled(s.loggers[i])
    && var c' := FlusherStep(s.loggers[i]);
       s' == Moved(s, i, c', HolderAfterFlush(s, c'))
  }

  /** The numbers below `n`. */
  function Below(n: nat): (s: set<nat>)
    ensures forall i: nat :: i in s <==> i < n
  {
    if n == 0 then {} else Below(n - 1) + {n - 1}
  }

  /** Taking the mutex of the list, going on to some logger that is left, giving it back. */
  ghost predicate Turns(s: System, s': System) {
    || (s.holder.Free? && s' == s.(holder := TheFlusher(Below(|s.loggers|), None)))
    || (s.holder.TheFlusher? && s.holder.now == None && exists i ::
          i in s.holder.left && s' == s.(holder := TheFlusher(s.holder.left - {i}, Some(i))))
    || (s.holder.TheFlusher? && s.holder.now == None && s.holder.left == {} && s' == s.(holder := Free))
  }

  /** The constructor of a logger adds it to the list. */
  ghost predicate Adds(s: System, s': System) {
    s.holder.Free? && s' == s.(loggers := s.loggers + [Start()])
  }

  ghost predicate SystemNext(size: nat, s: System, s': System) {
    || (exists i :: Logs(size, s, s', i))
    || (exists i :: Flushes(s, s', i))
    || Turns(s, s')
    || Adds(s, s')
  }

  ghost predicate SystemRun(size: nat, run: seq<System>) {
    && run != [] && run[0] == System([], Free, [], [])
    && forall i :: 0 <= i < |run| - 1 ==> SystemNext(size, run[i], run[i + 1])
  }

  // ----- the invariant -----

  /** The bytes of entries that are being written by a flush of this logger. */
  function Partial(c: State): seq<Byte> {
    var to := WrittenTo(c);
    if c.m.nextRead <= to <= |c.m.buffer| then c.m.buffer[c.m.nextRead..to] else []
  }

  /** The logger whose buffer the holder of the mutex may be writing out. */
  function WritesFor(holder: Holder): Option<nat> {
    match holder
    case Free => None
    case LoggingThread(i) => Some(i)
    case TheFlusher(_, now) => now
  }

  /** The part of an unfinished write that is in the file. */
  function Unfinished(s: System): seq<Byte> {
    match WritesFor(s.holder)
    case None => []
    case Some(i) => if i < |s.loggers| then Partial(s.loggers[i]) else []
  }

  function Bytes(written: seq<Tagged>): seq<Byte> {
    if written == [] then [] else Bytes(written[..|written| - 1]) + written[|written| - 1].entry
  }

  /** The entries of one logger. */
  function EntriesOf(written: seq<Tagged>, i: nat): seq<Entry> {
    if written == [] then [] else
      EntriesOf(written[..|written| - 1], i) +
        if written[|written| - 1].logger == i then [written[|written| - 1].entry] else []
  }

  /** The mutex of the list as logger `i` sees it. */
  predicate Sees(holder: Holder, c: State, i: nat) {
    && (c.m.list == Producer <==> holder == LoggingThread(i))
    && (c.m.list == Flusher ==> holder.TheFlusher? && holder.now == Some(i))
  }

  predicate HolderOk(holder: Holder, n: nat) {
    match holder
    case Free => true
    case LoggingThread(i) => i < n
    case TheFlusher(left, now) => (now.Some? ==> now.value < n) && forall i :: i in left ==> i < n
  }

  predicate LoggerOk(size: nat, s: System, i: nat)
    requires i < |s.loggers|
  {
    var c := s.loggers[i];
    && Logger.Inv(size, c) && Sees(s.holder, c, i)
    && EntriesOf(s.written, i) == DoneEntries(c)
  }

  ghost predicate AllSee(s: System) {
    forall j :: 0 <= j < |s.loggers| ==> Sees(s.holder, s.loggers[j], j)
  }

  ghost predicate SystemInv(size: nat, s: System) {
    && HolderOk(s.holder, |s.loggers|)
    && (forall i :: 0 <= i < |s.loggers| ==> LoggerOk(size, s, i))
    && (forall t :: t in s.written ==> t.logger < |s.loggers|)
    && s.file == Bytes(s.written) + Unfinished(s)
  }

  // ----- one step of one logger -----

  /** The file of one logger is the entries that are done and the part of an unfinished write. */
  predicate FileKept(c: State) {
    c.m.file == Concat(DoneEntries(c)) + Partial(c)
  }

  lemma InvKeepsFile(size: nat, c: State)
    requires Logger.Inv(size, c)
    ensures FileKept(c)
  {
    if Crossed(c) {
      assert DoneEntries(c) == c.m.logged && Partial(c) == [];
    }
  }

  /** Nothing that is logged, done or in the file is taken back. */
  ghost predicate Extends(c: State, c': State) {
    && c.m.file <= c'.m.file && c.m.logged <= c'.m.logged
    && c.m.done <= c'.m.done <= |c'.m.logged| && c.m.done <= |c.m.logged|
  }

  lemma FlushExtends(m: Memory, who: Owner, pc: FlushPc)
    requires FlushOk(m, pc)
    ensures var m' := FlushStep(m, who, pc).0; m.file <= m'.file && m.logged == m'.logged && m.done <= m'.done
  {
  }

  lemma NoFlushExtends(c: State, e: Entry, block: seq<Byte>)
    requires !c.producer.Flushing?
    ensures var m := ProducerStep(c, e, block).m; m.file == c.m.file && c.m.logged <= m.logged && m.done == c.m.done
  {
  }

  lemma DoneIsLogged(size: nat, c: State)
    requires Logger.Inv(size, c)
    ensures c.m.done <= |c.m.logged|
  {
  }

  lemma ProducerExtends(size: nat, c: State, e: Entry, block: seq<Byte>)
    requires Logger.Inv(size, c) && Logger.Inv(size, ProducerStep(c, e, block))
    ensures Extends(c, ProducerStep(c, e, block))
  {
    DoneIsLogged(size, c);
    DoneIsLogged(size, ProducerStep(c, e, block));
    if c.producer.Flushing? {
      FlushExtends(c.m, Producer, c.producer.pc);
    } else {
      NoFlushExtends(c, e, block);
    }
  }

  lemma FlusherExtends(size: nat, c: State)
    requires Logger.Inv(size, c) && Logger.Inv(size, FlusherStep(c))
    ensures Extends(c, FlusherStep(c))
  {
    DoneIsLogged(size, c);
    DoneIsLogged(size, FlusherStep(c));
    if c.flusher.Draining? {
      FlushExtends(c.m, Flusher, c.flusher.pc);
    }
  }

  lemma DoneGrow(c: State, c': State)
    requires Extends(c, c')
    ensures DoneEntries(c') == DoneEntries(c) + NewlyDone(c, c')
    ensures Concat(DoneEntries(c')) == Concat(DoneEntries(c)) + Concat(NewlyDone(c, c'))
    ensures c'.m.file == c.m.file + NewBytes(c, c')
  {
    assert DoneEntries(c) == c'.m.logged[..c.m.done];
    ConcatSplit(DoneEntries(c), NewlyDone(c, c'));
  }

  lemma Balance(done: seq<Byte>, more: seq<Byte>, partial: seq<Byte>, partial': seq<Byte>, bytes: seq<Byte>)
    requires (done + partial) + bytes == (done + more) + partial'
    ensures partial + bytes == more + partial'
  {
    assert (done + partial) + bytes == done + (partial + bytes);
    assert (done + more) + partial' == done + (more + partial');
    Cancel(done, partial + bytes, more + partial');
  }

  /** What a step writes continues the unfinished write until the entries are done. */
  lemma StepBytes(c: State, c': State)
    requires FileKept(c) && FileKept(c') && Extends(c, c')
    ensures Partial(c) + NewBytes(c, c') == Concat(NewlyDone(c, c')) + Partial(c')
  {
    DoneGrow(c, c');
    Balance(Concat(DoneEntries(c)), Concat(NewlyDone(c, c')), Partial(c), Partial(c'), NewBytes(c, c'));
  }

  /** A step of neither thread in the middle of a write. */
  ghost predicate Quiet(c: State, c': State) {
    NewBytes(c, c') == [] && NewlyDone(c, c') == [] && Partial(c) == [] && Partial(c') == []
  }

  lemma QuietStep(c: State, c': State)
    requires FileKept(c) && FileKept(c') && Extends(c, c')
    requires Partial(c) == [] && c'.m.file == c.m.file && c'.m.done == c.m.done
    ensures Quiet(c, c')
  {
    StepBytes(c, c');
    assert Concat([]) == [];
  }

  lemma NotWriting(c: State)
    requires !Writing(c)
    ensures Partial(c) == []
    ensures c.flusher.Draining? ==> var m := FlusherStep(c).m; m.file == c.m.file && m.done == c.m.done
  {
  }

  lemma ProducerNotWriting(c: State, e: Entry, block: seq<Byte>)
    requires !Writing(c)
    ensures var m := ProducerStep(c, e, block).m; m.file == c.m.file && m.done == c.m.done
  {
  }

  // ----- the lists of tagged entries -----

  lemma TagLast(written: seq<Tagged>, i: nat, entries: seq<Entry>)
    requires entries != []
    ensures var all := written + TagAll(i, entries); var n := |entries| - 1;
      all[..|all| - 1] == written + TagAll(i, entries[..n]) && all[|all| - 1] == Tagged(i, entries[n])
  {
    var tags, n := TagAll(i, entries), |entries| - 1;
    assert tags == TagAll(i, entries[..n]) + [Tagged(i, entries[n])];
  }

  lemma {:induction false} TaggedBytes(written: seq<Tagged>, i: nat, entries: seq<Entry>)
    ensures Bytes(written + TagAll(i, entries)) == Bytes(written) + Concat(entries)
  {
    if entries == [] {
      assert written + [] == written;
    } else {
      var n := |entries| - 1;
      TaggedBytes(written, i, entries[..n]);
      TagLast(written, i, entries);
      Associate(Bytes(written), Concat(entries[..n]), entries[n]);
    }
  }

  lemma {:induction false} TaggedEntries(written: seq<Tagged>, i: nat, entries: seq<Entry>, j: nat)
    ensures EntriesOf(written + TagAll(i, entries), j) == EntriesOf(written, j) + if i == j then entries else []
  {
    if entries == [] {
      assert written + [] == written;
    } else {
      var n := |entries| - 1;
      TaggedEntries(written, i, entries[..n], j);
      TagLast(written, i, entries);
      assert entries == entries[..n] + [entries[n]];
    }
  }

  lemma {:induction false} TagsAreOf(i: nat, entries: seq<Entry>)
    ensures forall t :: t in TagAll(i, entries) ==> t.logger == i
  {
    if entries == [] {
    } else {
      TagsAreOf(i, entries[..|entries| - 1]);
    }
  }

  // ----- the steps keep the invariant -----

  lemma MovedEntries(size: nat, s: System, i: nat, c': State, holder: Holder, j: nat)
    requires SystemInv(size, s) && i < |s.loggers| && j < |s.loggers| && Extends(s.loggers[i], c')
    ensures var s' := Moved(s, i, c', holder);
      |s'.loggers| == |s.loggers| && EntriesOf(s'.written, j) == DoneEntries(s'.loggers[j])
  {
    assert LoggerOk(size, s, j);
    TaggedEntries(s.written, i, NewlyDone(s.loggers[i], c'), j);
    DoneGrow(s.loggers[i], c');
  }

  lemma MovedFile(s: System, i: nat, c': State, holder: Holder)
    requires i < |s.loggers| && s.file == Bytes(s.written) + Unfinished(s)
    requires var c := s.loggers[i];
      Unfinished(s) + NewBytes(c, c') == Concat(NewlyDone(c, c')) + Unfinished(Moved(s, i, c', holder))
    ensures var s' := Moved(s, i, c', holder); s'.file == Bytes(s'.written) + Unfinished(s')
  {
    var c := s.loggers[i];
    TaggedBytes(s.written, i, NewlyDone(c, c'));
    Associate(Bytes(s.written), Unfinished(s), NewBytes(c, c'));
    Associate(Bytes(s.written), Concat(NewlyDone(c, c')), Unfinished(Moved(s, i, c', holder)));
  }

  lemma MovedTags(s: System, i: nat, c': State, holder: Holder)
    requires i < |s.loggers| && forall t :: t in s.written ==> t.logger < |s.loggers|
    ensures forall t :: t in Moved(s, i, c', holder).written ==> t.logger < |s.loggers|
  {
    TagsAreOf(i, NewlyDone(s.loggers[i], c'));
  }

  /** A step of logger `i` that keeps the logger's own invariant, the mutex and the balance
      of what is written keeps the invariant of all loggers. */
  lemma MovedInv(size: nat, s: System, i: nat, c': State, holder: Holder)
    requires SystemInv(size, s) && i < |s.loggers| && Logger.Inv(size, c') && Extends(s.loggers[i], c')
    requires HolderOk(holder, |s.loggers|)
    requires AllSee(Moved(s, i, c', holder))
    requires var c := s.loggers[i];
      Unfinished(s) + NewBytes(c, c') == Concat(NewlyDone(c, c')) + Unfinished(Moved(s, i, c', holder))
    ensures SystemInv(size, Moved(s, i, c', holder))
  {
    var s' := Moved(s, i, c', holder);
    forall j | 0 <= j < |s'.loggers| ensures LoggerOk(size, s', j) {
      assert LoggerOk(size, s, j);
      MovedEntries(size, s, i, c', holder, j);
    }
    MovedTags(s, i, c', holder);
    MovedFile(s, i, c', holder);
  }

  /** Whoever is writing for logger `i` holds the mutex of the list. */
  lemma WriterHolds(size: nat, s: System, i: nat)
    requires SystemInv(size, s) && i < |s.loggers| && Writing(s.loggers[i])
    ensures WritesFor(s.holder) == Some(i)
  {
    assert LoggerOk(size, s, i);
  }

  /** The unfinished write after a step of logger `i` in the middle of a write. */
  lemma WritingMoves(s: System, i: nat, c': State)
    requires i < |s.loggers| && WritesFor(s.holder) == Some(i)
    requires FileKept(s.loggers[i]) && FileKept(c') && Extends(s.loggers[i], c')
    ensures var c := s.loggers[i];
      Unfinished(s) + NewBytes(c, c') == Concat(NewlyDone(c, c')) + Unfinished(Moved(s, i, c', s.holder))
  {
    StepBytes(s.loggers[i], c');
  }

  /** The unfinished write after another step of logger `i`, with which the mutex stays, or
      is taken or given back for logger `i`. */
  lemma QuietMoves(s: System, i: nat, c': State, holder: Holder)
    requires i < |s.loggers| && Quiet(s.loggers[i], c')
    requires WritesFor(holder) == WritesFor(s.holder)
          || {WritesFor(holder), WritesFor(s.holder)} == {None, Some(i)}
    ensures var c := s.loggers[i];
      Unfinished(s) + NewBytes(c, c') == Concat(NewlyDone(c, c')) + Unfinished(Moved(s, i, c', holder))
  {
    assert Unfinished(Moved(s, i, c', holder)) == Unfinished(s);
    assert Concat([]) == [] && Unfinished(s) + [] == [] + Unfinished(s);
  }

  lemma ProducerList(c: State, e: Entry, block: seq<Byte>)
    requires Locks(c)
    ensures ProducerStep(c, e, block).m.list ==
              if c.producer.LockList? then Producer
              else if c.producer.Flushing? && c.producer.pc.UnlockList? then Nobody
              else c.m.list
  {
  }

  lemma InvSees(size: nat, s: System)
    requires SystemInv(size, s)
    ensures AllSee(s)
  {
    forall j | 0 <= j < |s.loggers| ensures Sees(s.holder, s.loggers[j], j) {
      assert LoggerOk(size, s, j);
    }
  }

  /** What the loggers see of the mutex after a step of logging thread `i`. */
  lemma LogsSees(s: System, i: nat, e: Entry, block: seq<Byte>)
    requires AllSee(s) && i < |s.loggers| && Locks(s.loggers[i]) && ProducerEnabled(s.loggers[i])
    requires s.loggers[i].producer.LockList? ==> s.holder.Free?
    ensures var c' := ProducerStep(s.loggers[i], e, block); AllSee(Moved(s, i, c', HolderAfter(s, i, c')))
  {
    ProducerList(s.loggers[i], e, block);
    assert Sees(s.holder, s.loggers[i], i);
  }

  /** The mutex stays, or logging thread `i` takes it or gives it back. */
  lemma LogsPasses(s: System, i: nat, e: Entry, block: seq<Byte>)
    requires AllSee(s) && i < |s.loggers| && Locks(s.loggers[i]) && ProducerEnabled(s.loggers[i])
    requires s.loggers[i].producer.LockList? ==> s.holder.Free?
    ensures var holder := HolderAfter(s, i, ProducerStep(s.loggers[i], e, block));
      && (Writing(s.loggers[i]) ==> holder == s.holder)
      && (holder == s.holder || {holder, s.holder} == {Free, LoggingThread(i)})
  {
    ProducerList(s.loggers[i], e, block);
    assert Sees(s.holder, s.loggers[i], i);
  }

  lemma ProducerMoveInv(size: nat, s: System, i: nat, e: Entry, block: seq<Byte>)
    requires SystemInv(size, s) && i < |s.loggers| && ProducerEnabled(s.loggers[i])
    requires s.loggers[i].producer.LockList? ==> s.holder.Free?
    requires 0 < |e| <= size && |block| == size
    ensures var c' := ProducerStep(s.loggers[i], e, block); SystemInv(size, Moved(s, i, c', HolderAfter(s, i, c')))
  {
    var c, c' := s.loggers[i], ProducerStep(s.loggers[i], e, block);
    var holder := HolderAfter(s, i, c');
    assert LoggerOk(size, s, i);
    ProducerStepInv(size, c, e, block);
    ProducerExtends(size, c, e, block);
    InvKeepsFile(size, c);
    InvKeepsFile(size, c');
    InvSees(size, s);
    LogsSees(s, i, e, block);
    LogsPasses(s, i, e, block);
    if Writing(c) {
      WriterHolds(size, s, i);
      WritingMoves(s, i, c');
    } else {
      NotWriting(c);
      ProducerNotWriting(c, e, block);
      QuietStep(c, c');
      QuietMoves(s, i, c', holder);
    }
    MovedInv(size, s, i, c', holder);
  }

  lemma FlushesSees(s: System, i: nat)
    requires AllSee(s) && i < |s.loggers| && s.holder.TheFlusher? && s.holder.now == Some(i) && Locks(s.loggers[i])
    ensures var c' := FlusherStep(s.loggers[i]); var holder := HolderAfterFlush(s, c');
      AllSee(Moved(s, i, c', holder)) && (Writing(s.loggers[i]) ==> holder == s.holder)
  {
    assert Sees(s.holder, s.loggers[i], i);
  }

  lemma FlushesInv(size: nat, s: System, s': System, i: nat)
    requires SystemInv(size, s) && Flushes(s, s', i)
    ensures SystemInv(size, s')
  {
    var c, c' := s.loggers[i], FlusherStep(s.loggers[i]);
    var holder := HolderAfterFlush(s, c');
    assert LoggerOk(size, s, i);
    FlusherStepInv(size, c);
    FlusherExtends(size, c);
    InvKeepsFile(size, c);
    InvKeepsFile(size, c');
    InvSees(size, s);
    FlushesSees(s, i);
    if Writing(c) {
      WriterHolds(size, s, i);
      WritingMoves(s, i, c');
    } else {
      NotWriting(c);
      QuietStep(c, c');
      QuietMoves(s, i, c', holder);
    }
    MovedInv(size, s, i, c', holder);
  }

  /** Nobody is writing when the flusher goes from one logger to another. */
  lemma NobodyWrites(size: nat, s: System, i: nat)
    requires SystemInv(size, s) && i < |s.loggers| && WritesFor(s.holder) == None
    ensures Partial(s.loggers[i]) == []
  {
    assert LoggerOk(size, s, i);
    NotWriting(s.loggers[i]);
  }

  lemma TurnsInv(size: nat, s: System, s': System)
    requires SystemInv(size, s) && Turns(s, s')
    ensures SystemInv(size, s')
  {
    forall j | 0 <= j < |s.loggers| ensures LoggerOk(size, s', j) {
      assert LoggerOk(size, s, j);
    }
    match WritesFor(s'.holder)
    case None =>
    case Some(i) => NobodyWrites(size, s, i);
  }

  lemma AddsInv(size: nat, s: System, s': System)
    requires SystemInv(size, s) && Adds(s, s')
    ensures SystemInv(size, s')
  {
    assert Concat([]) == [];
    forall j | 0 <= j < |s'.loggers| ensures LoggerOk(size, s', j) {
      if j < |s.loggers| {
        assert LoggerOk(size, s, j);
      } else {
        NoEntriesOf(s.written, j);
      }
    }
  }

  lemma {:induction false} NoEntriesOf(written: seq<Tagged>, i: nat)
    requires forall t :: t in written ==> t.logger != i
    ensures EntriesOf(written, i) == []
  {
    if written == [] {
    } else {
      NoEntriesOf(written[..|written| - 1], i);
    }
  }

  /** Every step of any thread keeps the invariant of all loggers. */
  lemma SystemStepInv(size: nat, s: System, s': System)
    requires SystemInv(size, s) && SystemNext(size, s, s')
    ensures SystemInv(size, s')
  {
    if i: nat :| Logs(size, s, s', i) {
      var e: Entry, block: seq<Byte> :| LogsWith(size, s, s', i, e, block);
      ProducerMoveInv(size, s, i, e, block);
    } else if i: nat :| Flushes(s, s', i) {
      FlushesInv(size, s, s', i);
    } else if Turns(s, s') {
      TurnsInv(size, s, s');
    } else {
      AddsInv(size, s, s');
    }
  }

  lemma {:induction false} SystemRunInv(size: nat, run: seq<System>, k: nat)
    requires SystemRun(size, run) && k < |run|
    ensures SystemInv(size, run[k])
  {
    if k == 0 {
    } else {
      SystemRunInv(size, run, k - 1);
      assert SystemNext(size, run[k - 1], run[k - 1 + 1]);
      SystemStepInv(size, run[k - 1], run[k]);
    }
  }

  // ----- what it means -----

  /** What one logger has logged and not yet written out. */
  function Waiting(c: State): seq<Entry> {
    if c.m.done <= |c.m.logged| then c.m.logged[c.m.done..] else []
  }

  lemma EntriesAndWaiting(size: nat, s: System, i: nat)
    requires SystemInv(size, s) && i < |s.loggers|
    ensures EntriesOf(s.written, i) + Waiting(s.loggers[i]) == s.loggers[i].m.logged
  {
    assert LoggerOk(size, s, i);
    DoneIsLogged(size, s.loggers[i]);
  }

  lemma UnflushedWaits(size: nat, c: State)
    requires Logger.Inv(size, c) && !Writing(c)
    ensures Unflushed(c) == Concat(Waiting(c))
  {
    if Crossed(c) {
      assert Waiting(c) == [] && Unflushed(c) == [];
    }
  }

  /** In every interleaving of any number of logging threads with the flusher, the file is a
      sequence of whole entries and the beginning of an unfinished write, if there is one. Of
      these the entries of each logger, followed by those that wait in its buffer, are what
      was logged with it, in order. */
  lemma FileInterleaves(size: nat, run: seq<System>, k: nat)
    requires SystemRun(size, run) && k < |run|
    ensures var s := run[k];
      && s.file == Bytes(s.written) + Unfinished(s)
      && (forall t :: t in s.written ==> t.logger < |s.loggers|)
      && forall i :: 0 <= i < |s.loggers| ==>
           EntriesOf(s.written, i) + Waiting(s.loggers[i]) == s.loggers[i].m.logged
  {
    SystemRunInv(size, run, k);
    var s := run[k];
    forall i | 0 <= i < |s.loggers| ensures EntriesOf(s.written, i) + Waiting(s.loggers[i]) == s.loggers[i].m.logged {
      EntriesAndWaiting(size, s, i);
    }
  }

  /** Whenever no write is going on, the file is whole entries and nothing else, and what
      waits stands in the buffers. */
  lemma FileIsWhole(size: nat, run: seq<System>, k: nat)
    requires SystemRun(size, run) && k < |run|
    requires forall i :: 0 <= i < |run[k].loggers| ==> !Writing(run[k].loggers[i])
    ensures run[k].file == Bytes(run[k].written)
    ensures forall i :: 0 <= i < |run[k].loggers| ==> Unflushed(run[k].loggers[i]) == Concat(Waiting(run[k].loggers[i]))
  {
    SystemRunInv(size, run, k);
    var s := run[k];
    forall i | 0 <= i < |s.loggers| ensures Unflushed(s.loggers[i]) == Concat(Waiting(s.loggers[i])) {
      assert LoggerOk(size, s, i);
      UnflushedWaits(size, s.loggers[i]);
    }
    match WritesFor(s.holder)
    case None =>
    case Some(i) => if i < |s.loggers| { NotWriting(s.loggers[i]); }
  }

  /** There are runs with any number of loggers. */
  lemma {:induction false} AnyNumberOfLoggers(size: nat, n: nat) returns (run: seq<System>)
    ensures SystemRun(size, run) && run[|run| - 1] == System(seq(n, _ => Start()), Free, [], [])
  {
    if n == 0 {
      run := [System([], Free, [], [])];
    } else {
      var before := AnyNumberOfLoggers(size, n - 1);
      var last := before[|before| - 1];
      run := before + [last.(loggers := last.loggers + [Start()])];
      assert last.loggers + [Start()] == seq(n, _ => Start());
      assert Adds(last, run[|run| - 1]);
      forall i | 0 <= i < |run| - 1 ensures SystemNext(size, run[i], run[i + 1]) {
        assert i + 1 < |before| ==> SystemNext(size, before[i], before[i + 1]);
      }
    }
  }

  /** While it holds the mutex the flusher goes to loggers that are left, to each once. */
  lemma LeftShrinks(size: nat, s: System, s': System)
    requires SystemInv(size, s) && SystemNext(size, s, s') && s.holder.TheFlusher? && s'.holder.TheFlusher?
    ensures s'.holder.left <= s.holder.left
    ensures s.holder.now == None && s'.holder.now.Some?
      ==> s'.holder.now.value in s.holder.left && s'.holder.now.value !in s'.holder.left && |s'.holder.left| < |s.holder.left|
  {
    forall j | Logs(size, s, s', j) ensures s'.holder == s.holder {
      LogsLeaves(size, s, s', j);
    }
    if s'.holder != s.holder && s'.holder.now.Some? {
      assert s.holder.left == s'.holder.left + {s'.holder.now.value};
    }
  }

  // ----- one whole drain -----

  ghost predicate FlusherUpTo(c: State, n: nat) {
    c.flusher.Draining? ==> FlushesUpTo(c.m, c.flusher.pc, n)
  }

  /** Logger `i` in a drain that began when it had logged `n` entries. */
  ghost predicate DrainedSoFar(s: System, i: nat, n: nat)
    requires i < |s.loggers|
  {
    var c := s.loggers[i];
    && |c.m.logged| >= n
    && (s.holder.TheFlusher? && s.holder.now == Some(i) ==> FlusherUpTo(c, n))
    && (s.holder.TheFlusher? && s.holder.now != Some(i) && i !in s.holder.left ==> c.m.done >= n)
  }

  lemma ProducerKeeps(size: nat, c: State, e: Entry, block: seq<Byte>, n: nat)
    requires Logger.Inv(size, c) && ProducerEnabled(c) && 0 < |e| <= size && |block| == size
    ensures var c' := ProducerStep(c, e, block);
      Extends(c, c') && c'.flusher == c.flusher && (FlusherUpTo(c, n) ==> FlusherUpTo(c', n))
  {
    ProducerStepInv(size, c, e, block);
    ProducerExtends(size, c, e, block);
  }

  lemma LogsDrains(size: nat, s: System, s': System, i: nat, j: nat, n: nat, e: Entry, block: seq<Byte>)
    requires SystemInv(size, s) && LogsWith(size, s, s', j, e, block) && i < |s.loggers| && DrainedSoFar(s, i, n)
    requires s.holder.TheFlusher? && s'.holder.TheFlusher?
    ensures i < |s'.loggers| && DrainedSoFar(s', i, n)
  {
    assert LoggerOk(size, s, j);
    ProducerKeeps(size, s.loggers[j], e, block, n);
  }

  lemma FlusherUpToStep(size: nat, c: State, n: nat)
    requires Logger.Inv(size, c) && FlusherEnabled(c) && FlusherUpTo(c, n) && |c.m.logged| >= n
    ensures var c' := FlusherStep(c);
      |c'.m.logged| >= n && FlusherUpTo(c', n) && (c'.flusher.Resting? ==> c'.m.done >= n)
  {
    if c.flusher.Draining? {
      if InFlush(c.flusher.pc) {
        FlushUpToStep(c.m, Flusher, c.flusher.pc, n);
      }
    }
  }

  lemma FlushesDrains(size: nat, s: System, s': System, i: nat, j: nat, n: nat)
    requires SystemInv(size, s) && Flushes(s, s', j) && i < |s.loggers| && DrainedSoFar(s, i, n)
    ensures i < |s'.loggers| && DrainedSoFar(s', i, n)
  {
    if i == j {
      assert LoggerOk(size, s, j);
      FlusherUpToStep(size, s.loggers[i], n);
    }
  }

  lemma TurnsDrains(size: nat, s: System, s': System, i: nat, n: nat)
    requires SystemInv(size, s) && Turns(s, s') && i < |s.loggers| && DrainedSoFar(s, i, n)
    requires s.holder.TheFlusher? && s'.holder.TheFlusher?
    ensures i < |s'.loggers| && DrainedSoFar(s', i, n)
  {
    assert LoggerOk(size, s, i);
  }

  lemma DrainStep(size: nat, s: System, s': System, i: nat, n: nat)
    requires SystemInv(size, s) && SystemNext(size, s, s') && i < |s.loggers| && DrainedSoFar(s, i, n)
    requires s.holder.TheFlusher? && s'.holder.TheFlusher?
    ensures i < |s'.loggers| && DrainedSoFar(s', i, n)
  {
    if j: nat :| Logs(size, s, s', j) {
      var e: Entry, block: seq<Byte> :| LogsWith(size, s, s', j, e, block);
      LogsDrains(size, s, s', i, j, n, e, block);
    } else if j: nat :| Flushes(s, s', j) {
      FlushesDrains(size, s, s', i, j, n);
    } else {
      TurnsDrains(size, s, s', i, n);
    }
  }

  /** The flusher holds the mutex of the list from state `a + 1` to state `b`. */
  ghost predicate DrainRuns(size: nat, run: seq<System>, a: nat, b: nat) {
    && SystemRun(size, run) && a < b < |run|
    && run[a].holder.Free? && forall k :: a < k <= b ==> run[k].holder.TheFlusher?
  }

  /** The mutex goes from nobody to the flusher. */
  lemma DrainStarts(size: nat, run: seq<System>, a: nat, b: nat)
    requires DrainRuns(size, run, a, b)
    ensures run[a + 1] == run[a].(holder := TheFlusher(Below(|run[a].loggers|), None))
  {
    assert SystemNext(size, run[a], run[a + 1]);
    assert run[a + 1].holder.TheFlusher?;
  }

  lemma RunStep(size: nat, run: seq<System>, k: nat)
    requires SystemRun(size, run) && k + 1 < |run|
    ensures SystemInv(size, run[k]) && SystemNext(size, run[k], run[k + 1])
  {
    SystemRunInv(size, run, k);
  }

  lemma {:induction false} DrainKeeps(size: nat, run: seq<System>, a: nat, b: nat, i: nat, k: nat)
    requires DrainRuns(size, run, a, b) && a < k <= b && i < |run[a].loggers|
    ensures i < |run[k].loggers| && DrainedSoFar(run[k], i, |run[a].loggers[i].m.logged|)
    decreases k
  {
    if k == a + 1 {
      DrainStarts(size, run, a, b);
    } else {
      var j := k - 1;
      DrainKeeps(size, run, a, b, i, j);
      RunStep(size, run, j);
      DrainStep(size, run[j], run[k], i, |run[a].loggers[i].m.logged|);
    }
  }

  lemma DrainedIsWritten(size: nat, s: System, i: nat, logged: seq<Entry>)
    requires SystemInv(size, s) && i < |s.loggers| && s.loggers[i].m.done >= |logged| && logged <= s.loggers[i].m.logged
    ensures logged <= EntriesOf(s.written, i)
  {
    assert LoggerOk(size, s, i);
    DoneIsLogged(size, s.loggers[i]);
  }

  lemma LogsLogged(size: nat, s: System, s': System, i: nat, j: nat, e: Entry, block: seq<Byte>)
    requires SystemInv(size, s) && LogsWith(size, s, s', j, e, block) && i < |s.loggers|
    ensures i < |s'.loggers| && s.loggers[i].m.logged <= s'.loggers[i].m.logged
  {
    assert LoggerOk(size, s, j);
    ProducerKeeps(size, s.loggers[j], e, block, 0);
  }

  lemma FlushesLogged(size: nat, s: System, s': System, i: nat, j: nat)
    requires SystemInv(size, s) && Flushes(s, s', j) && i < |s.loggers|
    ensures i < |s'.loggers| && s.loggers[i].m.logged <= s'.loggers[i].m.logged
  {
    assert LoggerOk(size, s, j);
    FlusherStepInv(size, s.loggers[j]);
    FlusherExtends(size, s.loggers[j]);
  }

  lemma StepLogged(size: nat, s: System, s': System, i: nat)
    requires SystemInv(size, s) && SystemNext(size, s, s') && i < |s.loggers|
    ensures i < |s'.loggers| && s.loggers[i].m.logged <= s'.loggers[i].m.logged
  {
    if j: nat :| Logs(size, s, s', j) {
      var e: Entry, block: seq<Byte> :| LogsWith(size, s, s', j, e, block);
      LogsLogged(size, s, s', i, j, e, block);
    } else if j: nat :| Flushes(s, s', j) {
      FlushesLogged(size, s, s', i, j);
    }
  }

  /** Nothing that is logged is taken back. */
  lemma {:induction false} LoggedGrows(size: nat, run: seq<System>, a: nat, b: nat, i: nat)
    requires SystemRun(size, run) && a <= b < |run| && i < |run[a].loggers|
    ensures i < |run[b].loggers| && run[a].loggers[i].m.logged <= run[b].loggers[i].m.logged
    decreases b
  {
    if a == b {
    } else {
      var j := b - 1;
      LoggedGrows(size, run, a, j, i);
      RunStep(size, run, j);
      StepLogged(size, run[j], run[b], i);
    }
  }

  /** No logging thread takes the mutex from the flusher. */
  lemma LogsLeaves(size: nat, s: System, s': System, j: nat)
    requires SystemInv(size, s) && Logs(size, s, s', j) && s.holder.TheFlusher?
    ensures s'.holder == s.holder
  {
    assert LoggerOk(size, s, j);
  }

  /** The flusher gives the mutex back only when it has been through all loggers. */
  lemma DrainEnds(size: nat, s: System, s': System)
    requires SystemInv(size, s) && SystemNext(size, s, s') && s.holder.TheFlusher? && s'.holder.Free?
    ensures s.holder.left == {} && s.holder.now == None && s' == s.(holder := Free)
  {
    forall j | Logs(size, s, s', j) ensures s'.holder == s.holder {
      LogsLeaves(size, s, s', j);
    }
  }

  /** Whenever the flusher gives the mutex back, whatever any logger had logged when it took
      the mutex is in the file, in order. */
  lemma DrainWrites(size: nat, run: seq<System>, a: nat, b: nat, i: nat)
    requires DrainRuns(size, run, a, b) && i < |run[a].loggers|
    requires b + 1 < |run| && run[b + 1].holder.Free?
    ensures i < |run[b + 1].loggers| && run[a].loggers[i].m.logged <= EntriesOf(run[b + 1].written, i)
  {
    RunStep(size, run, b);
    DrainEnds(size, run[b], run[b + 1]);
    DrainKeeps(size, run, a, b, i, b);
    LoggedGrows(size, run, a, b, i);
    DrainedIsWritten(size, run[b], i, run[a].loggers[i].m.logged);
  }

  /** The mutex of the list is never held by a thread that waits for ever: its holder can
      take a step, or waits for the mutex of one logger, whose thread can take one. */
  lemma HolderProceeds(size: nat, run: seq<System>, k: nat)
    requires SystemRun(size, run) && k < |run|
    ensures var s := run[k];
      match s.holder
      case Free => true
      case LoggingThread(i) => i < |s.loggers| && ProducerEnabled(s.loggers[i]) && !s.loggers[i].producer.LockList?
      case TheFlusher(_, None) => true
      case TheFlusher(_, Some(i)) =>
        && i < |s.loggers|
        && (FlusherEnabled(s.loggers[i]) || (ProducerEnabled(s.loggers[i]) && !s.loggers[i].producer.LockList?))
  {
    SystemRunInv(size, run, k);
    var s := run[k];
    match WritesFor(s.holder)
    case None =>
    case Some(i) => assert LoggerOk(size, s, i);
  }
}
