/** The log reader: entries that were logged by several threads are put in the order of
    their timestamps by holding them back in a priority queue. */
module LogReader {
  import opened Basics

  /** A decoded entry; the reader looks only at the timestamp. */
  datatype Entry = Entry(timestamp: int, id: nat, arguments: seq<Byte>)

  /** `buffer_time_in_nanos` */
  const BUFFER_TIME: int := 50 * 4 * 1_000_000

  function Abs(x: int): int {
    if x < 0 then -x else x
  }

  /** What `top` of the queue may be: of entries with equal timestamps it is any. */
  ghost predicate IsTop(e: Entry, queue: multiset<Entry>) {
    e in queue && forall x :: x in queue ==> e.timestamp <= x.timestamp
  }

  lemma {:induction false} TopExists(queue: multiset<Entry>) returns (top: Entry)
    requires queue != multiset{}
    ensures IsTop(top, queue)
    decreases |queue|
  {
    var e :| e in queue;
    var rest := queue - multiset{e};
    if rest == multiset{} {
      top := e;
      assert queue == multiset{e};
    } else {
      var other := TopExists(rest);
      top := if e.timestamp <= other.timestamp then e else other;
      assert forall x :: x in queue ==> x == e || x in rest;
    }
  }

  /** Is the next entry close enough to the oldest one held back? */
  ghost predicate Close(queue: multiset<Entry>, next: Entry) {
    forall top {:trigger IsTop(top, queue)} :: IsTop(top, queue) ==> Abs(top.timestamp - next.timestamp) < BUFFER_TIME
  }

  // ----- one call, and all calls -----

  /** The reader's state: what is held back, and what the file still has. */
  datatype State = State(queue: multiset<Entry>, rest: seq<Entry>)

  function TakenIn(s: State): State
    requires s.rest != []
  {
    State(s.queue + multiset{s.rest[0]}, s.rest[1..])
  }

  /** A call of `readnextstring` that does not wait for more: it takes entries in until one
      is far from the oldest held back or the file ends, and gives out the oldest. */
  ghost predicate Reads(s: State, r: Option<Entry>, t: State)
    decreases |s.rest|
  {
    if s.rest == [] then
      if s.queue == multiset{} then r == None && t == s
      else r.Some? && IsTop(r.value, s.queue) && t == State(s.queue - multiset{r.value}, [])
    else if s.queue == multiset{} || Close(s.queue, s.rest[0]) then Reads(TakenIn(s), r, t)
    else r.Some? && IsTop(r.value, TakenIn(s).queue) && t == State(TakenIn(s).queue - multiset{r.value}, s.rest[1..])
  }

  /** Calls until the reader has nothing more give out `out`. */
  ghost predicate ReadsAll(s: State, out: seq<Entry>)
    decreases |out|
  {
    if out == [] then Reads(s, None, s)
    else exists t :: Reads(s, Some(out[0]), t) && ReadsAll(t, out[1..])
  }

  /** An entry is close to the oldest one held back when it is less than 200 milliseconds
      older or younger. */
  lemma CloseIff(queue: multiset<Entry>, top: Entry, next: Entry)
    requires IsTop(top, queue)
    ensures Close(queue, next) <==> -200_000_000 < top.timestamp - next.timestamp < 200_000_000
  {
  }

  /** An entry that is far from the oldest one is the last that the call takes in; what is
      given out is the oldest with it. */
  lemma FarEndsCall(s: State, top: Entry, r: Option<Entry>, t: State)
    requires s.rest != [] && IsTop(top, s.queue) && Reads(s, r, t)
    requires !(-200_000_000 < top.timestamp - s.rest[0].timestamp < 200_000_000)
    ensures t.rest == s.rest[1..] && r.Some?
    ensures if s.rest[0].timestamp < top.timestamp then r.value == s.rest[0] else r.value.timestamp == top.timestamp
  {
    CloseIff(s.queue, top, s.rest[0]);
  }

  /** As long as entries are close to the oldest one, the call takes them in. */
  lemma NearGoesOn(s: State, top: Entry, r: Option<Entry>, t: State)
    requires s.rest != [] && IsTop(top, s.queue)
    requires -200_000_000 < top.timestamp - s.rest[0].timestamp < 200_000_000
    ensures Reads(s, r, t) <==> Reads(State(s.queue + multiset{s.rest[0]}, s.rest[1..]), r, t)
  {
    CloseIff(s.queue, top, s.rest[0]);
  }

  // ----- nothing is lost -----

  function All(s: State): multiset<Entry> {
    s.queue + multiset(s.rest)
  }

  lemma TakeIn(s: State)
    requires s.rest != []
    ensures All(TakenIn(s)) == All(s) && TakenIn(s).queue != multiset{}
  {
    assert s.rest == [s.rest[0]] + s.rest[1..];
  }

  lemma {:induction false} ReadsConserves(s: State, r: Option<Entry>, t: State)
    requires Reads(s, r, t)
    ensures All(s) == All(t) + (if r.Some? then multiset{r.value} else multiset{})
    ensures r == None ==> s == t == State(multiset{}, [])
    decreases |s.rest|
  {
    if s.rest == [] {
    } else {
      TakeIn(s);
      if s.queue == multiset{} || Close(s.queue, s.rest[0]) {
        ReadsConserves(TakenIn(s), r, t);
      }
    }
  }

  lemma MultisetCons(out: seq<Entry>)
    requires out != []
    ensures multiset(out) == multiset(out[1..]) + multiset{out[0]}
  {
    assert out == [out[0]] + out[1..];
  }

  lemma {:induction false} ReadsAllConserves(s: State, out: seq<Entry>)
    requires ReadsAll(s, out)
    ensures All(s) == multiset(out)
    decreases |out|
  {
    if out == [] {
      ReadsConserves(s, None, s);
    } else {
      var t :| Reads(s, Some(out[0]), t) && ReadsAll(t, out[1..]);
      ReadsConserves(s, Some(out[0]), t);
      ReadsAllConserves(t, out[1..]);
      MultisetCons(out);
    }
  }

  // ----- the order -----

  ghost predicate NotLaterThan(from: int, s: State) {
    forall x :: x in All(s) ==> from <= x.timestamp
  }

  /** No entry of the file is older than an entry before it by more than 200 milliseconds. */
  predicate AlmostSorted(entries: seq<Entry>) {
    forall i, j :: 0 <= i < j < |entries| ==> entries[i].timestamp - entries[j].timestamp <= 200_000_000
  }

  predicate AlmostInOrder(s: State) {
    && AlmostSorted(s.rest)
    && forall x, i :: x in s.queue && 0 <= i < |s.rest| ==> x.timestamp - s.rest[i].timestamp <= BUFFER_TIME
  }

  predicate Sorted(out: seq<Entry>) {
    forall i, j :: 0 <= i < j < |out| ==> out[i].timestamp <= out[j].timestamp
  }

  lemma TakeInKeepsOrder(s: State)
    requires s.rest != [] && AlmostInOrder(s)
    ensures AlmostInOrder(TakenIn(s))
  {
  }

  /** An entry that is far from the oldest held back shows that nothing older is to come. */
  lemma FarIsOldest(s: State, r: Entry)
    requires s.rest != [] && AlmostInOrder(s)
    requires s.queue != multiset{} && !Close(s.queue, s.rest[0]) && IsTop(r, TakenIn(s).queue)
    ensures forall i :: 1 <= i < |s.rest| ==> r.timestamp <= s.rest[i].timestamp
  {
    var e := s.rest[0];
    var top :| IsTop(top, s.queue) && Abs(top.timestamp - e.timestamp) >= BUFFER_TIME;
    assert top in TakenIn(s).queue && e in TakenIn(s).queue;
  }

  lemma RestIsLater(from: int, queue: multiset<Entry>, r: Entry, rest: seq<Entry>)
    requires forall x :: x in queue ==> from <= x.timestamp
    requires forall i :: 0 <= i < |rest| ==> from <= rest[i].timestamp
    ensures NotLaterThan(from, State(queue - multiset{r}, rest))
  {
    forall x | x in All(State(queue - multiset{r}, rest)) ensures from <= x.timestamp {
      assert x in queue || x in rest;
    }
  }

  /** What a call gives out is not younger than anything still to come. */
  lemma {:induction false} ReadsOldest(s: State, r: Option<Entry>, t: State)
    requires Reads(s, r, t) && AlmostInOrder(s)
    ensures AlmostInOrder(t) && (r.Some? ==> NotLaterThan(r.value.timestamp, t))
    decreases |s.rest|
  {
    if s.rest == [] {
      if s.queue != multiset{} {
        RestIsLater(r.value.timestamp, s.queue, r.value, []);
      }
    } else {
      TakeInKeepsOrder(s);
      if s.queue == multiset{} || Close(s.queue, s.rest[0]) {
        ReadsOldest(TakenIn(s), r, t);
      } else {
        FarIsOldest(s, r.value);
        RestIsLater(r.value.timestamp, TakenIn(s).queue, r.value, s.rest[1..]);
      }
    }
  }

  lemma SortedCons(out: seq<Entry>, t: State)
    requires out != [] && NotLaterThan(out[0].timestamp, t) && All(t) == multiset(out[1..]) && Sorted(out[1..])
    ensures Sorted(out)
  {
    forall j | 1 <= j < |out| ensures out[0].timestamp <= out[j].timestamp {
      assert out[1..][j - 1] in multiset(out[1..]);
    }
    forall i, j | 1 <= i < j < |out| ensures out[i].timestamp <= out[j].timestamp {
      assert out[i] == out[1..][i - 1] && out[j] == out[1..][j - 1];
    }
  }

  lemma {:induction false} ReadsAllSorted(s: State, out: seq<Entry>)
    requires ReadsAll(s, out) && AlmostInOrder(s)
    ensures Sorted(out)
    decreases |out|
  {
    if out == [] {
    } else {
      var t :| Reads(s, Some(out[0]), t) && ReadsAll(t, out[1..]);
      ReadsOldest(s, Some(out[0]), t);
      ReadsAllSorted(t, out[1..]);
      ReadsAllConserves(t, out[1..]);
      SortedCons(out, t);
    }
  }

  /** Every file comes out as a permutation, and in order of time if no entry is late by
      more than the buffer time. */
  lemma EmitsSortedPermutation(file: seq<Entry>, out: seq<Entry>)
    requires ReadsAll(State(multiset{}, file), out)
    ensures multiset(out) == multiset(file)
    ensures AlmostSorted(file) ==> Sorted(out)
  {
    ReadsAllConserves(State(multiset{}, file), out);
    if AlmostSorted(file) {
      ReadsAllSorted(State(multiset{}, file), out);
    }
  }

  // ----- exactly when it comes out in order -----

  ghost predicate NoneOlder(top: Entry, rest: seq<Entry>) {
    forall i :: 0 <= i < |rest| ==> top.timestamp <= rest[i].timestamp
  }

  /** Whenever an entry is far from the oldest held back, none that comes after it is older
      than the oldest held then. Of entries with equal timestamps any may be the oldest. */
  ghost predicate InTime(s: State)
    decreases |s.rest|
  {
    if s.rest == [] then true
    else if s.queue == multiset{} || Close(s.queue, s.rest[0]) then InTime(TakenIn(s))
    else forall top :: IsTop(top, TakenIn(s).queue) ==>
      NoneOlder(top, s.rest[1..]) && InTime(State(TakenIn(s).queue - multiset{top}, s.rest[1..]))
  }

  lemma {:induction false} ReadsInTime(s: State, r: Option<Entry>, t: State)
    requires Reads(s, r, t) && InTime(s)
    ensures InTime(t) && (r.Some? ==> NotLaterThan(r.value.timestamp, t))
    decreases |s.rest|
  {
    if s.rest == [] {
      if s.queue != multiset{} {
        RestIsLater(r.value.timestamp, s.queue, r.value, []);
      }
    } else if s.queue == multiset{} || Close(s.queue, s.rest[0]) {
      ReadsInTime(TakenIn(s), r, t);
    } else {
      RestIsLater(r.value.timestamp, TakenIn(s).queue, r.value, s.rest[1..]);
    }
  }

  lemma {:induction false} InTimeIsSorted(s: State, out: seq<Entry>)
    requires ReadsAll(s, out) && InTime(s)
    ensures Sorted(out)
    decreases |out|
  {
    if out == [] {
    } else {
      var t :| Reads(s, Some(out[0]), t) && ReadsAll(t, out[1..]);
      ReadsInTime(s, Some(out[0]), t);
      InTimeIsSorted(t, out[1..]);
      ReadsAllConserves(t, out[1..]);
      SortedCons(out, t);
    }
  }

  lemma {:induction false} ReadExists(s: State) returns (r: Entry, t: State)
    requires All(s) != multiset{}
    ensures Reads(s, Some(r), t)
    decreases |s.rest|
  {
    if s.rest == [] {
      assert All(s) == s.queue;
      r := TopExists(s.queue);
      t := State(s.queue - multiset{r}, []);
    } else {
      TakeIn(s);
      if s.queue == multiset{} || Close(s.queue, s.rest[0]) {
        r, t := ReadExists(TakenIn(s));
      } else {
        r := TopExists(TakenIn(s).queue);
        t := State(TakenIn(s).queue - multiset{r}, s.rest[1..]);
      }
    }
  }

  /** Every state can be read to the end. */
  lemma {:induction false} ReadsAllExists(s: State) returns (out: seq<Entry>)
    ensures ReadsAll(s, out)
    decreases |All(s)|
  {
    if s == State(multiset{}, []) {
      out := [];
    } else {
      assert All(s) != multiset{} by {
        if s.rest != [] { assert s.rest[0] in All(s); }
      }
      var r, t := ReadExists(s);
      ReadsConserves(s, Some(r), t);
      var more := ReadsAllExists(t);
      out := [r] + more;
      assert out[1..] == more;
    }
  }

  ghost predicate AlwaysSorted(s: State) {
    forall out :: ReadsAll(s, out) ==> Sorted(out)
  }

  lemma SortedTail(top: Entry, more: seq<Entry>)
    requires Sorted([top] + more)
    ensures Sorted(more) && NoneOlder(top, more)
  {
    var out := [top] + more;
    forall i, j | 0 <= i < j < |more| ensures more[i].timestamp <= more[j].timestamp {
      assert more[i] == out[i + 1] && more[j] == out[j + 1];
    }
    forall j | 0 <= j < |more| ensures top.timestamp <= more[j].timestamp {
      assert more[j] == out[j + 1] && top == out[0];
    }
  }

  lemma ReadThenAll(s: State, top: Entry, t: State, more: seq<Entry>)
    requires Reads(s, Some(top), t) && ReadsAll(t, more)
    ensures ReadsAll(s, [top] + more)
  {
    assert ([top] + more)[1..] == more;
  }

  /** What comes after the oldest is given out comes out behind it. */
  lemma AfterFirst(s: State, top: Entry, t: State)
    requires AlwaysSorted(s) && Reads(s, Some(top), t)
    ensures AlwaysSorted(t) && NotLaterThan(top.timestamp, t)
  {
    forall out: seq<Entry> | ReadsAll(t, out) ensures Sorted(out) {
      ReadThenAll(s, top, t, out);
      SortedTail(top, out);
    }
    var more := ReadsAllExists(t);
    ReadThenAll(s, top, t, more);
    SortedTail(top, more);
    ReadsAllConserves(t, more);
    forall x | x in All(t) ensures top.timestamp <= x.timestamp {
      assert x in more;
    }
  }

  lemma TakenInSorted(s: State)
    requires AlwaysSorted(s) && s.rest != [] && (s.queue == multiset{} || Close(s.queue, s.rest[0]))
    ensures AlwaysSorted(TakenIn(s))
  {
    forall out | ReadsAll(TakenIn(s), out) ensures Sorted(out) {
      TakeIn(s);
      ReadsAllConserves(TakenIn(s), out);
      assert ReadsAll(s, out);
    }
  }

  lemma {:induction false} SortedIsInTime(s: State)
    requires AlwaysSorted(s)
    ensures InTime(s)
    decreases |s.rest|
  {
    if s.rest == [] {
    } else if s.queue == multiset{} || Close(s.queue, s.rest[0]) {
      TakenInSorted(s);
      SortedIsInTime(TakenIn(s));
    } else {
      forall top | IsTop(top, TakenIn(s).queue)
        ensures NoneOlder(top, s.rest[1..]) && InTime(State(TakenIn(s).queue - multiset{top}, s.rest[1..]))
      {
        var t := State(TakenIn(s).queue - multiset{top}, s.rest[1..]);
        AfterFirst(s, top, t);
        SortedIsInTime(t);
        assert forall i :: 0 <= i < |t.rest| ==> t.rest[i] in All(t);
      }
    }
  }

  /** A file comes out in order of time, whichever of entries with equal timestamps goes
      first, if and only if no entry comes after an older one had to be given out. */
  lemma ComesOutSortedIff(file: seq<Entry>)
    ensures AlwaysSorted(State(multiset{}, file)) <==> InTime(State(multiset{}, file))
  {
    var s := State(multiset{}, file);
    if AlwaysSorted(s) {
      SortedIsInTime(s);
    }
    if InTime(s) {
      forall out | ReadsAll(s, out) ensures Sorted(out) {
        InTimeIsSorted(s, out);
      }
    }
  }

  function LateFile(late: int): seq<Entry> {
    [Entry(late, 0, []), Entry(late + 200_000_000, 1, []), Entry(200_000_000, 2, [])]
  }

  /** The first two entries of the file are far enough apart for the first to come out. */
  lemma FirstOfLateFile(late: int, r: Option<Entry>, t: State)
    requires late > 200_000_000 && Reads(State(multiset{}, LateFile(late)), r, t)
    ensures r == Some(LateFile(late)[0])
  {
    var f := LateFile(late);
    var s := TakenIn(State(multiset{}, f));
    assert s.queue == multiset{f[0]} && s.rest == [f[1], f[2]];
    assert IsTop(f[0], s.queue) && !Close(s.queue, f[1]);
  }

  lemma ComesOut(s: State, out: seq<Entry>, i: nat) returns (j: nat)
    requires ReadsAll(s, out) && i < |s.rest|
    ensures j < |out| && out[j] == s.rest[i]
  {
    ReadsAllConserves(s, out);
    assert s.rest[i] in multiset(out);
    j :| 0 <= j < |out| && out[j] == s.rest[i];
  }

  /** The bound cannot be better: for any greater lateness there is a file that comes out
      in the wrong order. */
  lemma BoundIsTight(late: int, out: seq<Entry>)
    requires late > 200_000_000 && ReadsAll(State(multiset{}, LateFile(late)), out)
    ensures forall i, j :: 0 <= i < j < 3 ==> LateFile(late)[i].timestamp - LateFile(late)[j].timestamp <= late
    ensures !Sorted(out)
  {
    var s := State(multiset{}, LateFile(late));
    var j := ComesOut(s, out, 2);
    var t :| Reads(s, Some(out[0]), t) && ReadsAll(t, out[1..]);
    FirstOfLateFile(late, Some(out[0]), t);
  }

  // ----- the class -----

  /** A call that goes on from `s` is a call from `begin`. */
  ghost predicate GoesOn(begin: State, s: State) {
    forall r, t :: Reads(s, r, t) ==> Reads(begin, r, t)
  }

  lemma TurnGoesOn(begin: State, s: State)
    requires GoesOn(begin, s) && s.rest != [] && (s.queue == multiset{} || Close(s.queue, s.rest[0]))
    ensures GoesOn(begin, TakenIn(s))
  {
    forall r, t | Reads(TakenIn(s), r, t) ensures Reads(begin, r, t) {
      assert Reads(s, r, t);
    }
  }

  class LogReader {
    var rest: seq<Entry>
    var queue: multiset<Entry>

    constructor (file: seq<Entry>)
      ensures Current() == State(multiset{}, file)
    {
      rest, queue := file, multiset{};
    }

    function Current(): State
      reads this
    {
      State(queue, rest)
    }

    /** `readnext` */
    method ReadNext() returns (r: Option<Entry>)
      modifies this`rest
      ensures old(rest) == [] ==> r == None && rest == []
      ensures old(rest) != [] ==> r == Some(old(rest)[0]) && rest == old(rest)[1..]
    {
      if rest == [] {
        return None;
      }
      r := Some(rest[0]);
      rest := rest[1..];
    }

    /** `top` and `pop` of the queue */
    method Pop() returns (e: Entry)
      requires queue != multiset{}
      modifies this`queue
      ensures IsTop(e, old(queue)) && queue == old(queue) - multiset{e}
    {
      ghost var top := TopExists(queue);
      e :| e in queue && forall x :: x in queue ==> e.timestamp <= x.timestamp;
      queue := queue - multiset{e};
    }

    /** The comparison with `top` */
    method IsClose(next: Entry) returns (near: bool)
      requires queue != multiset{}
      ensures near <==> Close(queue, next)
    {
      ghost var some := TopExists(queue);
      var top :| top in queue && forall x :: x in queue ==> top.timestamp <= x.timestamp;
      assert IsTop(top, queue);
      near := Abs(top.timestamp - next.timestamp) < BUFFER_TIME;
    }

    /** `readnextstring(false)`, without turning the entry into text; None for the empty
        string at the end. */
    method ReadNextString() returns (r: Option<Entry>)
      modifies this
      ensures Reads(old(Current()), r, Current())
    {
      ghost var begin := Current();
      while true
        invariant GoesOn(begin, Current())
        decreases |rest|
      {
        ghost var s := Current();
        var next := ReadNext();
        if next == None {
          if queue == multiset{} {
            return None;
          }
          var e := Pop();
          assert Reads(s, Some(e), Current());
          return Some(e);
        }
        if queue == multiset{} {
          queue := queue + multiset{next.value};
        } else {
          var near := IsClose(next.value);
          queue := queue + multiset{next.value};
          if !near {
            var e := Pop();
            assert Reads(s, Some(e), Current());
            return Some(e);
          }
        }
        assert Current() == TakenIn(s);
        TurnGoesOn(begin, s);
      }
    }
  }

  ghost predicate Continues(start: State, out: seq<Entry>, s: State) {
    forall more :: ReadsAll(s, more) ==> ReadsAll(start, out + more)
  }

  lemma ContinueStep(start: State, out: seq<Entry>, s: State, e: Entry, t: State)
    requires Continues(start, out, s) && Reads(s, Some(e), t)
    ensures Continues(start, out + [e], t)
  {
    forall more | ReadsAll(t, more) ensures ReadsAll(start, (out + [e]) + more) {
      assert ([e] + more)[1..] == more;
      assert ReadsAll(s, [e] + more);
      assert (out + [e]) + more == out + ([e] + more);
    }
  }

  /** Reading a whole log file. */
  method ReadFile(file: seq<Entry>) returns (out: seq<Entry>)
    ensures ReadsAll(State(multiset{}, file), out)
    ensures multiset(out) == multiset(file)
    ensures AlmostSorted(file) ==> Sorted(out)
  {
    var reader := new LogReader(file);
    out := [];
    ghost var start := reader.Current();
    assert forall more: seq<Entry> :: [] + more == more;
    while true
      invariant Continues(start, out, reader.Current())
      decreases |All(reader.Current())|
    {
      ghost var before := reader.Current();
      var r := reader.ReadNextString();
      ReadsConserves(before, r, reader.Current());
      if r == None {
        assert ReadsAll(before, []) && out + [] == out;
        EmitsSortedPermutation(file, out);
        return;
      }
      ContinueStep(start, out, before, r.value, reader.Current());
      out := out + [r.value];
    }
  }
}
