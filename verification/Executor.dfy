/** The re-entry and close protocol of `event_executor`: one atomic counter and one
    flag serialise any number of threads on one connection.

    Every access to the counter or the flag, and the beginning and the end of every
    `execute`, `flush` and `close` body, is one step; memory is sequentially
    consistent. `Next` is total, so a schedule (any sequence of thread choices) is a
    run, and every theorem about `Run` is about all interleavings of all lengths. */
module Executor {

  /** Where a thread stands between two of its steps. */
  datatype Pc =
    | Idle
    | Preparing                          // owner of a fresh executor, before `execute_protector_noenter`
    | Entering                           // about to run `executor_count++` for an event
    | Checking                           // about to read `closed`
    | Executing                          // inside `execute`
    | Leaving                            // about to run `--executor_count`
    | Marking(readClose: bool)           // about to set `closed`
    | MarkEntering(readClose: bool)      // about to run `executor_count++` for a close
    | Flushing                           // inside `flush`
    | Closing(marker: bool)              // inside `close`; `marker` when called by `mark_closed`
  {
    /** The thread runs on behalf of the whole connection. */
    predicate Inside() {
      Preparing? || Checking? || Executing? || Leaving? || Flushing? || Closing?
    }

    predicate InBody() {
      Executing? || Flushing? || Closing?
    }
  }

  datatype Call = ExecuteProtector | MarkClosed(readClose: bool)

  /** The shared variables, one program counter per thread, and history counters. */
  datatype State = State(
    count: int,            // executor_count
    closed: bool,
    pcs: seq<Pc>,
    entered: nat,          // calls of enter_loop
    executes: nat,         // calls of execute
    closes: nat,           // calls of close
    marksEntered: nat,     // mark_closed calls past their enter_loop
    marksReturned: nat     // mark_closed calls that returned
  )

  /** A fresh executor; `prepared` when its creator entered the loop before
      publishing it, as the upgrade to HTTP/2 does. */
  function Start(threads: nat, prepared: bool): State
    requires prepared ==> threads > 0
  {
    if prepared
    then State(1, false, [Preparing] + seq(threads - 1, _ => Idle), 1, 0, 0, 0, 0)
    else State(0, false, seq(threads, _ => Idle), 0, 0, 0, 0, 0)
  }

  datatype Choice = Choice(thread: nat, call: Call)

  /** One step of one thread; an idle thread begins the chosen call. */
  function Next(s: State, c: Choice): State
    requires c.thread < |s.pcs|
  {
    var t := c.thread;
    match s.pcs[t]
    case Idle =>
      s.(pcs := s.pcs[t := if c.call.ExecuteProtector? then Entering else Marking(c.call.readClose)])
    case Preparing =>
      s.(pcs := s.pcs[t := Checking])
    case Entering =>
      s.(count := s.count + 1, entered := s.entered + 1,
         pcs := s.pcs[t := if s.count == 0 then Checking else Idle])
    case Checking =>
      if s.closed
      then s.(closes := s.closes + 1, pcs := s.pcs[t := Closing(false)])
      else s.(executes := s.executes + 1, pcs := s.pcs[t := Executing])
    case Executing =>
      s.(pcs := s.pcs[t := Leaving])
    case Leaving =>
      s.(count := s.count - 1, pcs := s.pcs[t := if s.count - 1 == 0 then Idle else Checking])
    case Marking(readClose) =>
      s.(closed := true, pcs := s.pcs[t := MarkEntering(readClose)])
    case MarkEntering(readClose) =>
      var s' := s.(count := s.count + 1, entered := s.entered + 1, marksEntered := s.marksEntered + 1);
      if s.count != 0 then s'.(marksReturned := s.marksReturned + 1, pcs := s.pcs[t := Idle])
      else if readClose then s'.(pcs := s.pcs[t := Flushing])
      else s'.(closes := s.closes + 1, pcs := s.pcs[t := Closing(true)])
    case Flushing =>
      s.(closes := s.closes + 1, pcs := s.pcs[t := Closing(true)])
    case Closing(marker) =>
      s.(marksReturned := s.marksReturned + (if marker then 1 else 0), pcs := s.pcs[t := Idle])
  }

  ghost predicate Schedules(schedule: seq<Choice>, threads: nat) {
    forall i | 0 <= i < |schedule| :: schedule[i].thread < threads
  }

  /** The state after a whole schedule. */
  ghost function Run(s: State, schedule: seq<Choice>): (r: State)
    requires Schedules(schedule, |s.pcs|)
    ensures |r.pcs| == |s.pcs|
    decreases |schedule|
  {
    if schedule == [] then s else Run(Next(s, schedule[0]), schedule[1..])
  }

  /** No thread runs on behalf of the connection; calls may have begun and not entered yet. */
  ghost predicate NobodyInside(s: State) {
    forall i :: 0 <= i < |s.pcs| ==> !s.pcs[i].Inside()
  }

  /** `owner` is the one thread inside the protocol, or -1 when there is none. */
  ghost predicate Owns(s: State, owner: int) {
    && -1 <= owner < |s.pcs|
    && forall i :: 0 <= i < |s.pcs| ==> (s.pcs[i].Inside() <==> i == owner)
  }

  /** The owner has been counted by `execute` but not yet by `exit_loop`. */
  ghost predicate Serving(s: State, owner: int)
    requires -1 <= owner < |s.pcs|
  {
    owner >= 0 && (s.pcs[owner].Executing? || s.pcs[owner].Leaving?)
  }

  /** A `mark_closed` sets the flag before it enters. */
  ghost predicate MarkersClosed(s: State) {
    forall i :: 0 <= i < |s.pcs| && s.pcs[i].MarkEntering? ==> s.closed
  }

  /** The counters, for a given owner. The last clause is the subtle one: after a
      `mark_closed` has entered behind a runner, the runner either still has the closed
      check in front of it or finds the counter at 2 or more. */
  ghost predicate Counts(s: State, owner: int)
    requires -1 <= owner < |s.pcs|
  {
    && s.count >= 0
    && (owner >= 0 ==> s.count >= 1)
    && (s.closes == 0 && s.count >= 1 ==> owner >= 0)
    && (s.closes == 0 || (s.closes == 1 && s.closed && s.count >= 1))
    && (owner >= 0 ==> (s.pcs[owner].Closing? <==> s.closes == 1))
    && (owner >= 0 && s.pcs[owner].Flushing? ==> s.closed)
    && s.entered == s.executes + s.count - (if Serving(s, owner) then 1 else 0)
    && s.marksReturned + (if owner >= 0 && (s.pcs[owner].Flushing? || s.pcs[owner] == Closing(true)) then 1 else 0)
         == s.marksEntered
    && (s.marksEntered > 0 ==> s.closed)
    && (s.marksEntered > 0 && s.closes == 0 ==> s.count >= (if Serving(s, owner) then 2 else 1))
  }

  /** The inductive invariant, for a given owner. */
  ghost predicate InvFor(s: State, owner: int) {
    Owns(s, owner) && MarkersClosed(s) && Counts(s, owner)
  }

  ghost predicate Inv(s: State) {
    exists owner :: InvFor(s, owner)
  }

  lemma StartInv(threads: nat, prepared: bool)
    requires prepared ==> threads > 0
    ensures Inv(Start(threads, prepared))
  {
    assert InvFor(Start(threads, prepared), if prepared then 0 else -1);
  }

  /** Who is inside after a step of thread `t`. */
  function NextOwner(s: State, c: Choice, owner: int): int
    requires c.thread < |s.pcs|
  {
    if Next(s, c).pcs[c.thread].Inside() then c.thread
    else if owner == c.thread then -1
    else owner
  }

  lemma StepOwns(s: State, c: Choice, owner: int)
    requires InvFor(s, owner) && c.thread < |s.pcs|
    ensures Owns(Next(s, c), NextOwner(s, c, owner))
  {
    var s' := Next(s, c);
    assert s'.pcs == s.pcs[c.thread := s'.pcs[c.thread]];
    if s'.pcs[c.thread].Inside() {
      assert owner < 0 || owner == c.thread;
    }
  }

  lemma StepMarkersClosed(s: State, c: Choice)
    requires MarkersClosed(s) && c.thread < |s.pcs|
    ensures MarkersClosed(Next(s, c))
  {
    var s' := Next(s, c);
    assert s'.pcs == s.pcs[c.thread := s'.pcs[c.thread]];
  }

  lemma StepCounts(s: State, c: Choice, owner: int)
    requires -1 <= owner < |s.pcs| && c.thread < |s.pcs| && Counts(s, owner)
    requires s.pcs[c.thread].Inside() <==> c.thread == owner
    requires s.pcs[c.thread].MarkEntering? ==> s.closed
    ensures Counts(Next(s, c), NextOwner(s, c, owner))
  {
    assert Next(s, c).pcs == s.pcs[c.thread := Next(s, c).pcs[c.thread]];
  }

  lemma StepInvFor(s: State, c: Choice, owner: int)
    requires InvFor(s, owner) && c.thread < |s.pcs|
    ensures InvFor(Next(s, c), NextOwner(s, c, owner))
  {
    StepOwns(s, c, owner);
    StepMarkersClosed(s, c);
    StepCounts(s, c, owner);
  }

  lemma StepInv(s: State, c: Choice)
    requires Inv(s) && c.thread < |s.pcs|
    ensures Inv(Next(s, c))
  {
    var owner :| InvFor(s, owner);
    StepInvFor(s, c, owner);
  }

  lemma {:induction false} RunInv(s: State, schedule: seq<Choice>)
    requires Inv(s) && Schedules(schedule, |s.pcs|)
    ensures Inv(Run(s, schedule))
    decreases |schedule|
  {
    if schedule == [] {
    } else {
      StepInv(s, schedule[0]);
      RunInv(Next(s, schedule[0]), schedule[1..]);
    }
  }

  /** The state of a new executor with `threads` threads after a schedule. */
  ghost function Reached(threads: nat, prepared: bool, schedule: seq<Choice>): (r: State)
    requires prepared ==> threads > 0
    requires Schedules(schedule, threads)
    ensures |r.pcs| == threads && Inv(r)
  {
    StartInv(threads, prepared);
    RunInv(Start(threads, prepared), schedule);
    Run(Start(threads, prepared), schedule)
  }

  /** At most one thread is ever inside `execute`, `flush` or `close`, and the
      assertion of `execute_protector_noenter` holds. */
  lemma MutualExclusion(threads: nat, prepared: bool, schedule: seq<Choice>)
    requires prepared ==> threads > 0
    requires Schedules(schedule, threads)
    ensures var s := Reached(threads, prepared, schedule);
      && (forall i, j :: 0 <= i < threads && 0 <= j < threads && s.pcs[i].InBody() && s.pcs[j].InBody() ==> i == j)
      && (forall i :: 0 <= i < threads && s.pcs[i].Preparing? ==> s.count >= 1)
  {
    var s := Reached(threads, prepared, schedule);
    var owner :| InvFor(s, owner);
  }

  lemma OutsideBalance(s: State)
    requires Inv(s) && NobodyInside(s)
    ensures !s.closed ==> s.count == 0 && s.executes == s.entered
    ensures s.marksReturned > 0 ==> s.closes == 1 && s.closed && s.count >= 1
    ensures s.entered == s.executes + s.count
  {
    var owner :| InvFor(s, owner);
  }

  /** No event is lost: with nobody inside and no close requested, `execute` has been
      called once for every `enter_loop`, and the next event finds the counter at 0. */
  lemma NoEventLost(threads: nat, prepared: bool, schedule: seq<Choice>)
    requires prepared ==> threads > 0
    requires Schedules(schedule, threads)
    requires var s := Reached(threads, prepared, schedule); NobodyInside(s) && !s.closed
    ensures var s := Reached(threads, prepared, schedule); s.executes == s.entered && s.count == 0
  {
    OutsideBalance(Reached(threads, prepared, schedule));
  }

  lemma {:induction false} EnteredGrows(s: State, schedule: seq<Choice>)
    requires Schedules(schedule, |s.pcs|)
    ensures Run(s, schedule).entered >= s.entered
    ensures s.closed ==> Run(s, schedule).closed
    decreases |schedule|
  {
    if schedule == [] {
    } else {
      EnteredGrows(Next(s, schedule[0]), schedule[1..]);
    }
  }

  /** An event that arrives while another thread is running is served afresh: some
      `execute` begins after the arrival, unless a close is requested. */
  lemma EventServedAfterArrival(s: State, c: Choice, schedule: seq<Choice>)
    requires Inv(s) && c.thread < |s.pcs| && s.pcs[c.thread].Entering?
    requires Schedules(schedule, |s.pcs|)
    requires var q := Run(Next(s, c), schedule); NobodyInside(q) && !q.closed
    ensures Run(Next(s, c), schedule).executes > s.executes
  {
    var owner :| InvFor(s, owner);
    var s' := Next(s, c);
    StepInv(s, c);
    RunInv(s', schedule);
    EnteredGrows(s', schedule);
    OutsideBalance(Run(s', schedule));
  }

  /** Once some `mark_closed` has returned and nobody is inside, `close` has been called
      exactly once and the counter keeps every later thread out. */
  lemma ClosedExactlyOnce(threads: nat, prepared: bool, schedule: seq<Choice>)
    requires prepared ==> threads > 0
    requires Schedules(schedule, threads)
    requires var s := Reached(threads, prepared, schedule); NobodyInside(s) && s.marksReturned > 0
    ensures var s := Reached(threads, prepared, schedule); s.closes == 1 && s.count >= 1
  {
    OutsideBalance(Reached(threads, prepared, schedule));
  }

  /** After a close has been requested no `execute` begins any more. */
  lemma {:induction false} NoExecuteAfterRequest(s: State, schedule: seq<Choice>)
    requires s.closed && Schedules(schedule, |s.pcs|)
    ensures Run(s, schedule).executes == s.executes
    decreases |schedule|
  {
    if schedule == [] {
    } else {
      NoExecuteAfterRequest(Next(s, schedule[0]), schedule[1..]);
    }
  }

  /** After `close` has been called, whatever happens later, it is not called again,
      the counter stays above 0 and no event reaches `execute`. */
  lemma ClosedForever(s: State, schedule: seq<Choice>)
    requires Inv(s) && s.closes > 0 && Schedules(schedule, |s.pcs|)
    ensures var r := Run(s, schedule); r.closes == 1 && r.count >= 1 && r.executes == s.executes
  {
    RunInv(s, schedule);
    NoExecuteAfterRequest(s, schedule);
    ClosesGrow(s, schedule);
  }

  lemma {:induction false} ClosesGrow(s: State, schedule: seq<Choice>)
    requires Schedules(schedule, |s.pcs|)
    ensures Run(s, schedule).closes >= s.closes
    decreases |schedule|
  {
    if schedule == [] {
    } else {
      ClosesGrow(Next(s, schedule[0]), schedule[1..]);
    }
  }

  // ----- the bodies of a run, as seen from outside -----

  /** A body that a thread began, and the call it made it for. */
  datatype Body =
    | Execute(thread: nat, call: Call)
    | Flush(thread: nat, call: Call)
    | Close(thread: nat, call: Call)

  /** A run as an onlooker sees it: the last call of each thread, every body begun, and
      the number of `mark_closed` calls that returned. All of it comes from the choices
      and the program counters, none of it from the history counters. */
  datatype Watched = Watched(state: State, calls: seq<Call>, bodies: seq<Body>, returned: nat)

  function WatchedStart(threads: nat, prepared: bool): Watched
    requires prepared ==> threads > 0
  {
    Watched(Start(threads, prepared), seq(threads, _ => ExecuteProtector), [], 0)
  }

  function Begun(after: Pc, thread: nat, call: Call): seq<Body> {
    match after
    case Executing => [Execute(thread, call)]
    case Flushing => [Flush(thread, call)]
    case Closing(_) => [Close(thread, call)]
    case _ => []
  }

  function WatchedNext(w: Watched, c: Choice): (r: Watched)
    requires c.thread < |w.state.pcs| == |w.calls|
    ensures |r.state.pcs| == |r.calls| == |w.calls|
  {
    var t, next := c.thread, Next(w.state, c);
    var calls := if w.state.pcs[t].Idle? then w.calls[t := c.call] else w.calls;
    Watched(next, calls, w.bodies + Begun(next.pcs[t], t, calls[t]),
            w.returned + if next.pcs[t].Idle? && calls[t].MarkClosed? then 1 else 0)
  }

  ghost function WatchedRun(w: Watched, schedule: seq<Choice>): (r: Watched)
    requires |w.state.pcs| == |w.calls| && Schedules(schedule, |w.calls|)
    ensures |r.state.pcs| == |r.calls| == |w.calls|
    ensures r.state == Run(w.state, schedule)
    decreases |schedule|
  {
    if schedule == [] then w else WatchedRun(WatchedNext(w, schedule[0]), schedule[1..])
  }

  /** Where a thread can stand within its call. */
  predicate Fits(pc: Pc, call: Call) {
    match pc
    case Idle => true
    case Marking(r) => call == MarkClosed(r)
    case MarkEntering(r) => call == MarkClosed(r)
    case Flushing => call == MarkClosed(true)
    case Closing(marker) => call.MarkClosed? == marker
    case _ => call == ExecuteProtector
  }

  ghost predicate AllFit(w: Watched)
    requires |w.state.pcs| == |w.calls|
  {
    forall t :: 0 <= t < |w.calls| ==> Fits(w.state.pcs[t], w.calls[t])
  }

  ghost predicate OnlyExecutes(bodies: seq<Body>) {
    forall i :: 0 <= i < |bodies| ==> bodies[i].Execute? && bodies[i].call == ExecuteProtector
  }

  /** What the only `close` of a connection consists of, by the call that performs it. */
  function CloseOf(thread: nat, call: Call): seq<Body> {
    if call == MarkClosed(true) then [Flush(thread, call), Close(thread, call)] else [Close(thread, call)]
  }

  /** Some `execute`s and then `ending`. */
  ghost predicate EndsIn(bodies: seq<Body>, ending: seq<Body>) {
    && |ending| <= |bodies|
    && OnlyExecutes(bodies[..|bodies| - |ending|])
    && bodies[|bodies| - |ending|..] == ending
  }

  ghost predicate FlushedBy(s: State, owner: int) {
    0 <= owner < |s.pcs| && s.pcs[owner].Flushing?
  }

  /** Some `execute`s, and then the one close, a flush in progress, or nothing. */
  ghost predicate Ending(s: State, owner: int, bodies: seq<Body>) {
    if s.closes > 0 then exists t, call :: EndsIn(bodies, CloseOf(t, call))
    else EndsIn(bodies, if FlushedBy(s, owner) then [Flush(owner, MarkClosed(true))] else [])
  }

  function Executed(bodies: seq<Body>): nat {
    if bodies == [] then 0
    else Executed(bodies[..|bodies| - 1]) + if bodies[|bodies| - 1].Execute? then 1 else 0
  }

  /** The history counters of the state say what the onlooker saw. */
  ghost predicate Noted(w: Watched) {
    Executed(w.bodies) == w.state.executes && w.returned == w.state.marksReturned
  }

  ghost predicate WatchedFor(w: Watched, owner: int) {
    InvFor(w.state, owner) && Ending(w.state, owner, w.bodies)
  }

  ghost predicate WatchedInv(w: Watched) {
    && |w.state.pcs| == |w.calls|
    && AllFit(w)
    && Noted(w)
    && exists owner :: WatchedFor(w, owner)
  }

  lemma StepFits(w: Watched, c: Choice)
    requires |w.state.pcs| == |w.calls| && AllFit(w) && c.thread < |w.calls|
    ensures AllFit(WatchedNext(w, c))
  {
    var w' := WatchedNext(w, c);
    assert w'.state.pcs == w.state.pcs[c.thread := w'.state.pcs[c.thread]];
  }

  lemma OneMoreExecute(bodies: seq<Body>, thread: nat)
    requires EndsIn(bodies, [])
    ensures EndsIn(bodies + [Execute(thread, ExecuteProtector)], [])
  {
  }

  lemma OneMoreBody(bodies: seq<Body>, ending: seq<Body>, body: Body)
    requires EndsIn(bodies, ending)
    ensures EndsIn(bodies + [body], ending + [body])
  {
    var more := bodies + [body];
    assert more[..|more| - |ending| - 1] == bodies[..|bodies| - |ending|];
  }

  lemma LastBody(bodies: seq<Body>, flushed: bool, t: nat, call: Call)
    requires flushed <==> call == MarkClosed(true)
    requires EndsIn(bodies, if flushed then [Flush(t, call)] else [])
    ensures EndsIn(bodies + [Close(t, call)], CloseOf(t, call))
  {
    OneMoreBody(bodies, if flushed then [Flush(t, call)] else [], Close(t, call));
  }

  /** Bodies begin on an open connection; `close` is the last, and a flush is followed by it. */
  ghost predicate Stages(s: State, owner: int, s': State, owner': int, t: nat)
    requires t < |s.pcs| == |s'.pcs|
  {
    && (s'.closes > 0 <==> s.closes > 0 || s'.pcs[t].Closing?)
    && (s'.pcs[t].InBody() ==> s.closes == 0 && owner' == t && (FlushedBy(s, owner) <==> s.pcs[t].Flushing?))
    && (s'.pcs[t].InBody() && FlushedBy(s, owner) ==> s'.pcs[t].Closing? && owner == t)
    && (!s'.pcs[t].InBody() ==> (FlushedBy(s', owner') <==> FlushedBy(s, owner)))
    && (!s'.pcs[t].InBody() && FlushedBy(s, owner) ==> owner' == owner)
  }

  lemma StepStages(s: State, c: Choice, owner: int)
    requires InvFor(s, owner) && c.thread < |s.pcs|
    ensures Stages(s, owner, Next(s, c), NextOwner(s, c, owner), c.thread)
  {
    assert Next(s, c).pcs == s.pcs[c.thread := Next(s, c).pcs[c.thread]];
  }

  lemma StagesEnding(s: State, owner: int, s': State, owner': int, t: nat, call: Call, bodies: seq<Body>)
    requires t < |s.pcs| == |s'.pcs| && Stages(s, owner, s', owner', t)
    requires Fits(s'.pcs[t], call) && (s.pcs[t].Flushing? ==> call == MarkClosed(true))
    requires s'.pcs[t].Closing? && call == MarkClosed(true) ==> s.pcs[t].Flushing?
    requires Ending(s, owner, bodies)
    ensures Ending(s', owner', bodies + Begun(s'.pcs[t], t, call))
  {
    match s'.pcs[t] {
      case Executing => OneMoreExecute(bodies, t);
      case Flushing => OneMoreBody(bodies, [], Flush(t, MarkClosed(true)));
      case Closing(_) => LastBody(bodies, s.pcs[t].Flushing?, t, call);
      case _ => assert bodies + [] == bodies;
    }
  }

  lemma StepNoted(w: Watched, c: Choice)
    requires |w.state.pcs| == |w.calls| && c.thread < |w.calls| && Noted(w)
    requires Fits(w.state.pcs[c.thread], w.calls[c.thread])
    ensures Noted(WatchedNext(w, c))
  {
    var w' := WatchedNext(w, c);
    if |w'.bodies| > |w.bodies| {
      assert w'.bodies[..|w'.bodies| - 1] == w.bodies;
    } else {
      assert w'.bodies == w.bodies;
    }
  }

  lemma StepEnding(w: Watched, c: Choice, owner: int)
    requires |w.state.pcs| == |w.calls| && AllFit(w) && c.thread < |w.calls|
    requires InvFor(w.state, owner) && Ending(w.state, owner, w.bodies)
    ensures Ending(Next(w.state, c), NextOwner(w.state, c, owner), WatchedNext(w, c).bodies)
  {
    StepFits(w, c);
    StepStages(w.state, c, owner);
    var w', t := WatchedNext(w, c), c.thread;
    assert Fits(w.state.pcs[t], w.calls[t]) && Fits(w'.state.pcs[t], w'.calls[t]);
    StagesEnding(w.state, owner, w'.state, NextOwner(w.state, c, owner), t, w'.calls[t], w.bodies);
  }

  lemma StepWatched(w: Watched, c: Choice)
    requires WatchedInv(w) && c.thread < |w.calls|
    ensures WatchedInv(WatchedNext(w, c))
  {
    var owner :| WatchedFor(w, owner);
    StepInvFor(w.state, c, owner);
    StepFits(w, c);
    StepNoted(w, c);
    StepEnding(w, c, owner);
    assert WatchedFor(WatchedNext(w, c), NextOwner(w.state, c, owner));
  }

  lemma {:induction false} RunWatched(w: Watched, schedule: seq<Choice>)
    requires WatchedInv(w) && Schedules(schedule, |w.calls|)
    ensures WatchedInv(WatchedRun(w, schedule))
    decreases |schedule|
  {
    if schedule == [] {
    } else {
      StepWatched(w, schedule[0]);
      RunWatched(WatchedNext(w, schedule[0]), schedule[1..]);
    }
  }

  lemma WatchedStartInv(threads: nat, prepared: bool)
    requires prepared ==> threads > 0
    ensures WatchedInv(WatchedStart(threads, prepared))
  {
    NothingBegun(WatchedStart(threads, prepared), if prepared then 0 else -1);
  }

  lemma NothingBegun(w: Watched, owner: int)
    requires |w.state.pcs| == |w.calls| && AllFit(w) && w.bodies == [] && w.returned == 0
    requires w.state.executes == w.state.closes == w.state.marksReturned == 0
    requires InvFor(w.state, owner) && !FlushedBy(w.state, owner)
    ensures WatchedInv(w)
  {
    assert EndsIn(w.bodies, []);
    assert WatchedFor(w, owner);
  }

  /** A new executor and its calls after a schedule. */
  ghost function WatchedReached(threads: nat, prepared: bool, schedule: seq<Choice>): (w: Watched)
    requires prepared ==> threads > 0
    requires Schedules(schedule, threads)
    ensures |w.calls| == threads && WatchedInv(w) && w.state == Reached(threads, prepared, schedule)
  {
    var w := WatchedStart(threads, prepared);
    WatchedStartInv(threads, prepared);
    RunWatched(w, schedule);
    WatchedRun(w, schedule)
  }

  /** What a whole run calls: `execute`s for events alone and then at most one close, which
      flushes first exactly when it is made by a `mark_closed(true)`. */
  lemma BodiesOfARun(threads: nat, prepared: bool, schedule: seq<Choice>)
    requires prepared ==> threads > 0
    requires Schedules(schedule, threads)
    ensures var w := WatchedReached(threads, prepared, schedule);
      || OnlyExecutes(w.bodies)
      || (exists t :: 0 <= t < threads && w.state.pcs[t].Flushing? && EndsIn(w.bodies, [Flush(t, MarkClosed(true))]))
      || (exists t, call :: EndsIn(w.bodies, CloseOf(t, call)))
  {
    var w := WatchedReached(threads, prepared, schedule);
    var owner :| WatchedFor(w, owner);
    if w.state.closes == 0 {
      assert w.bodies == w.bodies[..|w.bodies|];
    }
  }

  /** A `mark_closed(r)` that finds the counter at 0 begins the close with that call: by a
      flush if r and at once if not; a flush is followed by the close of the same call.
      Behind another thread it returns and leaves the close to that thread. */
  lemma LetInCloses(w: Watched, c: Choice)
    requires |w.state.pcs| == |w.calls| && AllFit(w) && c.thread < |w.calls|
    ensures var t, w' := c.thread, WatchedNext(w, c); var call := w.calls[t];
      && (w.state.pcs[t].MarkEntering? && w.state.count == 0 ==>
            w'.bodies == w.bodies + [if call == MarkClosed(true) then Flush(t, call) else Close(t, call)])
      && (w.state.pcs[t].MarkEntering? && w.state.count != 0 ==>
            w'.bodies == w.bodies && w'.returned == w.returned + 1)
      && (w.state.pcs[t].Flushing? ==> call == MarkClosed(true) && w'.bodies == w.bodies + [Close(t, call)])
  {
    assert Fits(w.state.pcs[c.thread], w.calls[c.thread]);
  }

  ghost predicate OnlyEvents(schedule: seq<Choice>) {
    forall i :: 0 <= i < |schedule| ==> schedule[i].call == ExecuteProtector
  }

  ghost predicate NobodyMarks(s: State) {
    !s.closed && forall t :: 0 <= t < |s.pcs| ==> !s.pcs[t].Marking? && !s.pcs[t].MarkEntering?
  }

  lemma {:induction false} StaysOpen(s: State, schedule: seq<Choice>)
    requires Schedules(schedule, |s.pcs|) && OnlyEvents(schedule) && NobodyMarks(s)
    ensures NobodyMarks(Run(s, schedule))
    decreases |schedule|
  {
    if schedule == [] {
    } else {
      var c := schedule[0];
      assert Next(s, c).pcs == s.pcs[c.thread := Next(s, c).pcs[c.thread]];
      StaysOpen(Next(s, c), schedule[1..]);
    }
  }

  /** Without a call of `mark_closed` a connection is not closed: whenever nobody is inside,
      there has been one `execute` for every event. */
  lemma OpenWithoutMark(threads: nat, prepared: bool, schedule: seq<Choice>)
    requires prepared ==> threads > 0
    requires Schedules(schedule, threads) && OnlyEvents(schedule)
    ensures var s := Reached(threads, prepared, schedule);
      && !s.closed && s.closes == 0
      && (NobodyInside(s) ==> s.executes == s.entered)
  {
    var s := Reached(threads, prepared, schedule);
    StaysOpen(Start(threads, prepared), schedule);
    var owner :| InvFor(s, owner);
    if NobodyInside(s) { OutsideBalance(s); }
  }

  // Termination: with no new calls, every schedule runs dry.

  function Weight(pc: Pc): nat {
    match pc
    case Idle => 0
    case Preparing => 4
    case Entering => 8
    case Checking => 3
    case Executing => 2
    case Leaving => 1
    case Marking(_) => 9
    case MarkEntering(_) => 8
    case Flushing => 2
    case Closing(_) => 1
  }

  function TotalWeight(pcs: seq<Pc>): nat {
    if pcs == [] then 0 else Weight(pcs[0]) + TotalWeight(pcs[1..])
  }

  /** How many steps the calls in progress can still take. */
  function Remaining(s: State): int {
    4 * s.count + TotalWeight(s.pcs)
  }

  lemma {:induction false} UpdateWeight(pcs: seq<Pc>, t: nat, pc: Pc)
    requires t < |pcs|
    ensures TotalWeight(pcs[t := pc]) == TotalWeight(pcs) - Weight(pcs[t]) + Weight(pc)
  {
    if t == 0 {
      assert pcs[t := pc][1..] == pcs[1..];
    } else {
      assert pcs[t := pc][1..] == pcs[1..][t - 1 := pc];
      UpdateWeight(pcs[1..], t - 1, pc);
    }
  }

  /** Every choice steps a thread that is in the middle of a call. */
  ghost predicate NoNewCalls(s: State, schedule: seq<Choice>)
    requires Schedules(schedule, |s.pcs|)
    decreases |schedule|
  {
    schedule != [] ==>
      s.pcs[schedule[0].thread] != Idle && NoNewCalls(Next(s, schedule[0]), schedule[1..])
  }

  lemma StepLowersRemaining(s: State, c: Choice)
    requires c.thread < |s.pcs| && s.pcs[c.thread] != Idle
    ensures Remaining(Next(s, c)) < Remaining(s)
  {
    var s' := Next(s, c);
    assert s'.pcs == s.pcs[c.thread := s'.pcs[c.thread]];
    UpdateWeight(s.pcs, c.thread, s'.pcs[c.thread]);
  }

  /** Without new calls, no schedule is longer than `Remaining`: the protocol always
      comes to rest, whatever the interleaving. */
  lemma {:induction false} AlwaysComesToRest(s: State, schedule: seq<Choice>)
    requires Inv(s) && Schedules(schedule, |s.pcs|) && NoNewCalls(s, schedule)
    ensures |schedule| <= Remaining(s)
    decreases |schedule|
  {
    if schedule == [] {
      var owner :| InvFor(s, owner);
    } else {
      StepLowersRemaining(s, schedule[0]);
      StepInv(s, schedule[0]);
      AlwaysComesToRest(Next(s, schedule[0]), schedule[1..]);
    }
  }
}
