/** The loop of `iothttp2event::process_request` that sends a file as DATA frames. */
module FileResponse {
  import opened Basics
  import opened DataFrames
  import opened WriteQueue

  /** `init_frame` at the start of the write buffer */
  method InitFrame(buffer: array<Byte>, length: nat, t: FrameType, flags: Byte, stream: nat) returns (end: nat)
    requires buffer.Length >= HEADER_SIZE
    modifies buffer
    ensures end == HEADER_SIZE && buffer[..end] == Header(length, t, flags, stream)
  {
    var h := Header(length, t, flags, stream);
    end := 0;
    while end < HEADER_SIZE
      invariant end <= HEADER_SIZE && buffer[..end] == h[..end]
    {
      buffer[end] := h[end];
      end := end + 1;
    }
    assert h[..end] == h;
  }

  /** `std::copy` of a range of the file behind what the buffer holds */
  method CopyData(buffer: array<Byte>, start: nat, data: seq<Byte>, from: nat, to: nat) returns (end: nat)
    requires from <= to <= |data| && start + (to - from) <= buffer.Length
    modifies buffer
    ensures end == start + (to - from) && buffer[..end] == old(buffer[..start]) + data[from..to]
  {
    end := start;
    while end < start + (to - from)
      invariant start <= end <= start + (to - from)
      invariant buffer[..end] == old(buffer[..start]) + data[from..from + (end - start)]
    {
      buffer[end] := data[from + (end - start)];
      end := end + 1;
    }
  }

  /** One frame, built in the write buffer and pushed as a copy. */
  method PushFrame(peer: ServerPeer, buffer: array<Byte>, data: seq<Byte>, from: nat, to: nat, flags: Byte, stream: nat)
    requires peer.Valid() && from <= to <= |data| && HEADER_SIZE + (to - from) <= buffer.Length
    modifies peer`queue, buffer
    ensures peer.Valid()
    ensures peer.Current() == Pushed(old(peer.Current()), Serialized(Frame(Data, flags, stream, data[from..to])))
  {
    var end := InitFrame(buffer, to - from, Data, flags, stream);
    end := CopyData(buffer, end, data, from, to);
    peer.PushWrite(buffer[..end]);
  }

  function PushedFrames(p: Peer, frames: seq<Frame>): Peer
    decreases |frames|
  {
    if frames == [] then p else PushedFrames(Pushed(p, Serialized(frames[0])), frames[1..])
  }

  /** The whole loop: what is queued are the DATA frames of the file, one buffer each. */
  method SendFile(peer: ServerPeer, buffer: array<Byte>, data: seq<Byte>, stream: nat)
    requires peer.Valid() && buffer.Length == FRAME_SIZE
    modifies peer`queue, buffer
    ensures peer.Valid() && peer.Current() == PushedFrames(old(peer.Current()), DataFramesOf(data, stream))
  {
    var at: nat, size: nat := 0, |data|;
    ghost var goal := PushedFrames(peer.Current(), DataFramesOf(data, stream));
    assert data[0..] == data;
    while size + HEADER_SIZE > FRAME_SIZE
      invariant peer.Valid() && at + size == |data|
      invariant goal == PushedFrames(peer.Current(), DataFramesOf(data[at..], stream))
      decreases size
    {
      assert data[at..][..PAYLOAD_SIZE] == data[at..at + PAYLOAD_SIZE];
      assert data[at..][PAYLOAD_SIZE..] == data[at + PAYLOAD_SIZE..];
      FirstFrame(peer.Current(), data[at..], stream);
      PushFrame(peer, buffer, data, at, at + PAYLOAD_SIZE, NONE, stream);
      size := size - PAYLOAD_SIZE;
      at := at + PAYLOAD_SIZE;
    }
    LastFrame(peer.Current(), data[at..], stream);
    assert data[at..] == data[at..at + size];
    PushFrame(peer, buffer, data, at, at + size, END_STREAM, stream);
  }

  lemma FirstFrame(p: Peer, data: seq<Byte>, stream: nat)
    requires |data| > PAYLOAD_SIZE
    ensures PushedFrames(p, DataFramesOf(data, stream))
         == PushedFrames(Pushed(p, Serialized(Frame(Data, NONE, stream, data[..PAYLOAD_SIZE]))),
                         DataFramesOf(data[PAYLOAD_SIZE..], stream))
  {
    var frames := DataFramesOf(data, stream);
    assert frames[1..] == DataFramesOf(data[PAYLOAD_SIZE..], stream);
  }

  lemma LastFrame(p: Peer, data: seq<Byte>, stream: nat)
    requires |data| <= PAYLOAD_SIZE
    ensures PushedFrames(p, DataFramesOf(data, stream)) == Pushed(p, Serialized(Frame(Data, END_STREAM, stream, data)))
  {
    var frames := DataFramesOf(data, stream);
    assert frames[1..] == [];
    assert PushedFrames(Pushed(p, Serialized(frames[0])), []) == Pushed(p, Serialized(frames[0]));
  }

  /** Pushing frames adds their bytes, in order, to what is to be sent. */
  lemma {:induction false} FramesQueued(p: Peer, frames: seq<Frame>)
    requires p.Ok()
    ensures PushedFrames(p, frames).Ok()
    ensures PushedFrames(p, frames).sent + Remaining(PushedFrames(p, frames).queue)
         == p.sent + Remaining(p.queue) + Wire(frames)
    decreases |frames|
  {
    if frames == [] {
      assert p.sent + Remaining(p.queue) + [] == p.sent + Remaining(p.queue);
    } else {
      var next := Pushed(p, Serialized(frames[0]));
      PushConserves(p, Serialized(frames[0]));
      FramesQueued(next, frames[1..]);
      Associate(p.sent + Remaining(p.queue), Serialized(frames[0]), Wire(frames[1..]));
    }
  }

  /** The loop, followed by any run of `write_all`s in which no write fails and that
      empties the queue: behind what was sent and queued before, such as the frame with the
      response's header fields, the receiver has the file in DATA frames. */
  lemma SentFileArrives(p: Peer, data: seq<Byte>, stream: nat, writes: seq<Op>, q: Peer)
    requires p.Ok() && stream < STREAM_WORDS && (forall i :: 0 <= i < |writes| ==> writes[i].Write?)
    requires Runs(PushedFrames(p, DataFramesOf(data, stream)), writes, q) && q.queue == []
    ensures var before := p.sent + Remaining(p.queue);
      before <= q.sent && Carries(q.sent[|before|..], data, StreamOnWire(stream))
  {
    var before, frames := p.sent + Remaining(p.queue), DataFramesOf(data, stream);
    FramesQueued(p, frames);
    RunConserves(PushedFrames(p, frames), writes, q);
    WritesPushNothing(writes);
    assert q.sent == q.sent + [] == before + Wire(frames) + [] == before + Wire(frames);
    assert q.sent[|before|..] == Wire(frames);
    ReceivedFile(data, stream);
  }

  lemma {:induction false} WritesPushNothing(writes: seq<Op>)
    requires forall i :: 0 <= i < |writes| ==> writes[i].Write?
    ensures AllPushed(writes) == []
    decreases |writes|
  {
    if writes == [] {
    } else {
      WritesPushNothing(writes[1..]);
    }
  }
}
