/** The write queue of a connection: whole buffers are pushed, and written out over a
    socket that takes any part of what it is offered. */
module WriteQueue {
  import opened Basics

  /** `write_entry`; `written` bytes have been taken already. */
  datatype WriteEntry = WriteEntry(buffer: seq<Byte>, written: nat) {
    predicate Ok() {
      written <= |buffer|
    }

    function Left(): seq<Byte>
      requires Ok()
    {
      buffer[written..]
    }
  }

  /** What the socket does with one write: it takes up to `limit` bytes, or it fails. */
  datatype Outcome = Takes(limit: nat) | Fails

  datatype ClientState = SocketPeerEvent | SocketPeerWrite | OtherState

  /** A connection as `write_all` sees it, with all bytes taken by the socket so far. */
  datatype Peer = Peer(queue: seq<WriteEntry>, state: ClientState, sent: seq<Byte>) {
    predicate Ok() {
      forall i :: 0 <= i < |queue| ==> queue[i].Ok()
    }
  }

  // ----- the operations, on values -----

  function Pushed(p: Peer, buffer: seq<Byte>): Peer {
    p.(queue := p.queue + [WriteEntry(buffer, 0)])
  }

  /** The loop of `write_all`; `outcomes` are those of the writes it makes. */
  function Drained(p: Peer, outcomes: seq<Outcome>): Peer
    requires p.Ok() && |outcomes| >= |p.queue|
    decreases |p.queue|
  {
    if p.queue == [] then p else
      var front := p.queue[0];
      match outcomes[0]
      case Fails => Drained(p.(queue := p.queue[1..]), outcomes[1..])
      case Takes(n) =>
        if n >= |front.Left()| then Drained(Peer(p.queue[1..], p.state, p.sent + front.Left()), outcomes[1..])
        else Peer([front.(written := front.written + n)] + p.queue[1..], SocketPeerWrite, p.sent + front.Left()[..n])
  }

  function WrittenAll(p: Peer, outcomes: seq<Outcome>): Peer
    requires p.Ok() && |outcomes| >= |p.queue|
  {
    Drained(p.(state := SocketPeerEvent), outcomes)
  }

  /** The bytes still to be sent. */
  function Remaining(queue: seq<WriteEntry>): seq<Byte>
    requires forall i :: 0 <= i < |queue| ==> queue[i].Ok()
  {
    if queue == [] then [] else queue[0].Left() + Remaining(queue[1..])
  }

  // ----- conservation -----

  lemma {:induction false} RemainingConcat(a: seq<WriteEntry>, b: seq<WriteEntry>)
    requires forall i :: 0 <= i < |a| ==> a[i].Ok()
    requires forall i :: 0 <= i < |b| ==> b[i].Ok()
    ensures forall i :: 0 <= i < |a + b| ==> (a + b)[i].Ok()
    ensures Remaining(a + b) == Remaining(a) + Remaining(b)
    decreases |a|
  {
    if a == [] {
      assert a + b == b;
    } else {
      RemainingConcat(a[1..], b);
      assert (a + b)[1..] == a[1..] + b;
      assert (a[0].Left() + Remaining(a[1..])) + Remaining(b) == a[0].Left() + (Remaining(a[1..]) + Remaining(b));
    }
  }

  lemma PushConserves(p: Peer, buffer: seq<Byte>)
    requires p.Ok()
    ensures Pushed(p, buffer).Ok()
    ensures Pushed(p, buffer).sent + Remaining(Pushed(p, buffer).queue) == p.sent + Remaining(p.queue) + buffer
  {
    var e := WriteEntry(buffer, 0);
    RemainingConcat(p.queue, [e]);
    assert Remaining([e]) == buffer + [];
    assert p.sent + (Remaining(p.queue) + buffer) == p.sent + Remaining(p.queue) + buffer;
  }

  /** How many bytes failing writes throw away. */
  function Lost(queue: seq<WriteEntry>, outcomes: seq<Outcome>): nat
    requires (forall i :: 0 <= i < |queue| ==> queue[i].Ok()) && |outcomes| >= |queue|
  {
    if queue == [] then 0 else
      match outcomes[0]
      case Fails => |queue[0].Left()| + Lost(queue[1..], outcomes[1..])
      case Takes(n) => if n >= |queue[0].Left()| then Lost(queue[1..], outcomes[1..]) else 0
  }

  /** From `before` to `after`, `lost` bytes of the stream have gone, the others are in order. */
  ghost predicate Conserves(before: Peer, after: Peer, lost: nat) {
    && before.Ok() && after.Ok()
    && |after.sent + Remaining(after.queue)| + lost == |before.sent + Remaining(before.queue)|
    && (lost == 0 ==> after.sent + Remaining(after.queue) == before.sent + Remaining(before.queue))
  }

  /** A write that fails drops the front buffer. */
  lemma FailConserves(p: Peer, q: Peer, lost: nat)
    requires p.Ok() && p.queue != []
    requires Conserves(p.(queue := p.queue[1..]), q, lost)
    ensures Conserves(p, q, |p.queue[0].Left()| + lost)
  {
    var rest := Remaining(p.queue[1..]);
    assert |p.queue[0].Left() + rest| == |p.queue[0].Left()| + |rest|;
    if |p.queue[0].Left()| == 0 {
      assert [] + rest == rest;
    }
  }

  /** A write that takes all of the front buffer moves it to what is sent. */
  lemma TakeAllConserves(p: Peer, q: Peer, lost: nat)
    requires p.Ok() && p.queue != []
    requires Conserves(Peer(p.queue[1..], p.state, p.sent + p.queue[0].Left()), q, lost)
    ensures Conserves(p, q, lost)
  {
    Associate(p.sent, p.queue[0].Left(), Remaining(p.queue[1..]));
  }

  /** A write that takes `n` bytes of it leaves the others in the queue. */
  lemma TakeSomeConserves(p: Peer, n: nat)
    requires p.Ok() && p.queue != [] && n < |p.queue[0].Left()|
    ensures var front := p.queue[0];
      var now := front.(written := front.written + n);
      Conserves(p, Peer([now] + p.queue[1..], SocketPeerWrite, p.sent + front.Left()[..n]), 0)
  {
    var front, rest := p.queue[0], p.queue[1..];
    var now := front.(written := front.written + n);
    assert front.Left() == front.Left()[..n] + now.Left();
    assert ([now] + rest)[1..] == rest;
    Associate(p.sent, front.Left()[..n], now.Left() + Remaining(rest));
    Associate(front.Left()[..n], now.Left(), Remaining(rest));
  }

  /** Sent bytes and what is left make up the same stream as before, but for what failing
      writes throw away. */
  lemma {:induction false} DrainConserves(p: Peer, outcomes: seq<Outcome>)
    requires p.Ok() && |outcomes| >= |p.queue|
    ensures Conserves(p, Drained(p, outcomes), Lost(p.queue, outcomes))
    decreases |p.queue|
  {
    if p.queue == [] {
    } else {
      var front, rest := p.queue[0], p.queue[1..];
      match outcomes[0] {
        case Fails =>
          DrainConserves(p.(queue := rest), outcomes[1..]);
          FailConserves(p, Drained(p, outcomes), Lost(rest, outcomes[1..]));
        case Takes(n) =>
          if n >= |front.Left()| {
            DrainConserves(Peer(rest, p.state, p.sent + front.Left()), outcomes[1..]);
            TakeAllConserves(p, Drained(p, outcomes), Lost(rest, outcomes[1..]));
          } else {
            TakeSomeConserves(p, n);
          }
      }
    }
  }

  lemma WriteConserves(p: Peer, outcomes: seq<Outcome>)
    requires p.Ok() && |outcomes| >= |p.queue|
    ensures var q := WrittenAll(p, outcomes);
      && q.Ok()
      && (q.sent + Remaining(q.queue) == p.sent + Remaining(p.queue) <==> Lost(p.queue, outcomes) == 0)
  {
    var e := p.(state := SocketPeerEvent);
    DrainConserves(e, outcomes);
  }

  /** The bytes of the stream that do not stand in a buffer whose write fails. */
  function Surviving(queue: seq<WriteEntry>, outcomes: seq<Outcome>): seq<Byte>
    requires (forall i :: 0 <= i < |queue| ==> queue[i].Ok()) && |outcomes| >= |queue|
  {
    if queue == [] then [] else
      match outcomes[0]
      case Fails => Surviving(queue[1..], outcomes[1..])
      case Takes(n) =>
        if n >= |queue[0].Left()| then queue[0].Left() + Surviving(queue[1..], outcomes[1..]) else Remaining(queue)
  }

  /** Also when writes fail, what is sent and left is what was, without the buffers whose
      writes failed. */
  lemma {:induction false} DrainSurvives(p: Peer, outcomes: seq<Outcome>)
    requires p.Ok() && |outcomes| >= |p.queue|
    ensures var q := Drained(p, outcomes); q.Ok() && q.sent + Remaining(q.queue) == p.sent + Surviving(p.queue, outcomes)
    decreases |p.queue|
  {
    if p.queue == [] {
    } else {
      var front, rest := p.queue[0], p.queue[1..];
      match outcomes[0] {
        case Fails => DrainSurvives(p.(queue := rest), outcomes[1..]);
        case Takes(n) =>
          if n >= |front.Left()| {
            DrainSurvives(Peer(rest, p.state, p.sent + front.Left()), outcomes[1..]);
            Associate(p.sent, front.Left(), Surviving(rest, outcomes[1..]));
          } else {
            TakeSomeConserves(p, n);
          }
      }
    }
  }

  /** The write of entry `i` does not stop the loop: it fails, or takes all that is left. */
  predicate GoesOn(queue: seq<WriteEntry>, outcomes: seq<Outcome>, i: nat)
    requires i < |queue| && queue[i].Ok() && i < |outcomes|
  {
    outcomes[i].Fails? || outcomes[i].limit >= |queue[i].Left()|
  }

  /** The loop goes on until the queue is empty or the socket takes a part of a buffer; that
      part is marked as written, and the buffers behind it are as they were. */
  lemma {:induction false} DrainStops(p: Peer, outcomes: seq<Outcome>)
    requires p.Ok() && |outcomes| >= |p.queue|
    ensures var q := Drained(p, outcomes); var i := |p.queue| - |q.queue|;
      && 0 <= i
      && (forall j :: 0 <= j < i ==> GoesOn(p.queue, outcomes, j))
      && (q.queue != [] ==>
            && outcomes[i].Takes? && outcomes[i].limit < |p.queue[i].Left()|
            && q.queue[0] == p.queue[i].(written := p.queue[i].written + outcomes[i].limit)
            && q.queue[1..] == p.queue[i + 1..])
    decreases |p.queue|
  {
    if p.queue == [] {
    } else {
      var front, rest := p.queue[0], p.queue[1..];
      if GoesOn(p.queue, outcomes, 0) {
        var next := if outcomes[0].Fails? then p.(queue := rest) else Peer(rest, p.state, p.sent + front.Left());
        DrainStops(next, outcomes[1..]);
        var q := Drained(p, outcomes);
        var i := |p.queue| - |q.queue|;
        forall j | 0 <= j < i ensures GoesOn(p.queue, outcomes, j) {
          assert j > 0 ==> GoesOn(rest, outcomes[1..], j - 1);
        }
      }
    }
  }

  /** After `write_all` the state asks for another write event exactly when something is
      still queued. */
  lemma {:induction false} DrainState(p: Peer, outcomes: seq<Outcome>)
    requires p.Ok() && |outcomes| >= |p.queue|
    ensures var q := Drained(p, outcomes);
      (q.queue == [] ==> q.state == p.state) && (q.queue != [] ==> q.state == SocketPeerWrite)
    decreases |p.queue|
  {
    if p.queue == [] {
    } else {
      var front, rest := p.queue[0], p.queue[1..];
      match outcomes[0]
      case Fails => DrainState(p.(queue := rest), outcomes[1..]);
      case Takes(n) =>
        if n >= |front.Left()| { DrainState(Peer(rest, p.state, p.sent + front.Left()), outcomes[1..]); }
    }
  }

  lemma WriteState(p: Peer, outcomes: seq<Outcome>)
    requires p.Ok() && |outcomes| >= |p.queue|
    ensures var q := WrittenAll(p, outcomes);
      q.state == if q.queue == [] then SocketPeerEvent else SocketPeerWrite
  {
    DrainState(p.(state := SocketPeerEvent), outcomes);
  }

  // ----- runs -----

  datatype Op = Push(buffer: seq<Byte>) | Write(outcomes: seq<Outcome>)

  /** A run of pushes and `write_all`s in which no write fails on a non-empty buffer. */
  ghost predicate Runs(p: Peer, ops: seq<Op>, q: Peer)
    decreases |ops|
  {
    if ops == [] then p == q else
      match ops[0]
      case Push(b) => Runs(Pushed(p, b), ops[1..], q)
      case Write(outcomes) =>
        && p.Ok() && |outcomes| >= |p.queue| && Lost(p.queue, outcomes) == 0
        && Runs(WrittenAll(p, outcomes), ops[1..], q)
  }

  function AllPushed(ops: seq<Op>): seq<Byte> {
    if ops == [] then [] else (match ops[0] case Push(b) => b case Write(_) => []) + AllPushed(ops[1..])
  }

  /** Sent bytes followed by what is queued are all pushed bytes, in order, however the
      socket cuts them up. */
  lemma {:induction false} RunConserves(p: Peer, ops: seq<Op>, q: Peer)
    requires p.Ok() && Runs(p, ops, q)
    ensures q.Ok() && q.sent + Remaining(q.queue) == p.sent + Remaining(p.queue) + AllPushed(ops)
    decreases |ops|
  {
    if ops == [] {
      assert p.sent + Remaining(p.queue) + [] == p.sent + Remaining(p.queue);
    } else {
      match ops[0]
      case Push(b) =>
        PushConserves(p, b);
        RunConserves(Pushed(p, b), ops[1..], q);
        Associate(p.sent + Remaining(p.queue), b, AllPushed(ops[1..]));
      case Write(outcomes) =>
        WriteConserves(p, outcomes);
        RunConserves(WrittenAll(p, outcomes), ops[1..], q);
        assert [] + AllPushed(ops[1..]) == AllPushed(ops[1..]);
    }
  }

  // ----- the class -----

  class ServerPeer {
    var queue: seq<WriteEntry>
    var state: ClientState
    ghost var sent: seq<Byte>

    ghost function Current(): Peer
      reads this
    {
      Peer(queue, state, sent)
    }

    ghost predicate Valid()
      reads this
    {
      Current().Ok()
    }

    constructor (state: ClientState)
      ensures Valid() && Current() == Peer([], state, [])
    {
      queue, sent := [], [];
      this.state := state;
    }

    method PushWrite(buffer: seq<Byte>)
      requires Valid()
      modifies this`queue
      ensures Valid() && Current() == Pushed(old(Current()), buffer)
    {
      queue := queue + [WriteEntry(buffer, 0)];
    }

    /** `write_all`; the i-th write has the i-th outcome. */
    method WriteAll(outcomes: seq<Outcome>)
      requires Valid() && |outcomes| >= |queue|
      modifies this
      ensures Valid() && Current() == WrittenAll(old(Current()), outcomes)
      ensures queue != [] <==> state == SocketPeerWrite
    {
      WriteState(Current(), outcomes);
      state := SocketPeerEvent;
      ghost var goal := Drained(Current(), outcomes);
      var i := 0;
      ghost var left := outcomes;
      while queue != []
        invariant Valid() && 0 <= i <= |outcomes| && left == outcomes[i..] && |left| >= |queue|
        invariant state == SocketPeerEvent && Drained(Current(), left) == goal
        decreases |queue|
      {
        assert left[0] == outcomes[i];
        var front := queue[0];
        match outcomes[i] {
          case Fails =>
            queue := queue[1..];
          case Takes(n) =>
            if n >= |front.buffer| - front.written {
              sent := sent + front.Left();
              queue := queue[1..];
            } else {
              sent := sent + front.Left()[..n];
              queue := queue[0 := front.(written := front.written + n)];
              state := SocketPeerWrite;
              assert queue == [queue[0]] + queue[1..];
              break;
            }
        }
        left := left[1..];
        i := i + 1;
      }
    }
  }
}
