/** HTTP/2 frames on the wire, and the splitting of a file into DATA frames. */
module DataFrames {
  import opened Basics

  const HEADER_SIZE: nat := 9
  const FRAME_SIZE: nat := 16384

  datatype FrameType = Data | Headers | Priority | RstStream | Settings | PushPromise | Ping | Goaway | WindowUpdate
                     | Continuation

  /** The number of a type: its place in the list, from 0. */
  function TypeCode(t: FrameType): (code: nat)
    ensures code <= 9
  {
    match t
    case Data => 0 case Headers => 1 case Priority => 2 case RstStream => 3 case Settings => 4
    case PushPromise => 5 case Ping => 6 case Goaway => 7 case WindowUpdate => 8 case Continuation => 9
  }

  const NONE: Byte := 0x00
  const END_STREAM: Byte := 0x01

  datatype Frame = Frame(frameType: FrameType, flags: Byte, stream: nat, payload: seq<Byte>)

  /** `init_frame`: the 24 bits of the length in network byte order; the stream in the low
      31 bits of a little-endian word, which loses the top bit of the identifier's low byte. */
  function Header(length: nat, t: FrameType, flags: Byte, stream: nat): (h: seq<Byte>)
    ensures |h| == HEADER_SIZE
  {
    [length / 0x1_0000 % 256, length / 256 % 256, length % 256,
     TypeCode(t), flags,
     stream / 256 / 256 / 256 % 256, stream / 256 / 256 % 256, stream / 256 % 256, stream % 128]
  }

  function Serialized(f: Frame): seq<Byte> {
    Header(|f.payload|, f.frameType, f.flags, f.stream) + f.payload
  }

  function Wire(frames: seq<Frame>): seq<Byte> {
    if frames == [] then [] else Serialized(frames[0]) + Wire(frames[1..])
  }

  // ----- reading frames back (section 4.1 of RFC 7540) -----

  function LengthOf(h: seq<Byte>): nat
    requires |h| >= HEADER_SIZE
  {
    (h[0] as int) * 0x1_0000 + (h[1] as int) * 256 + h[2]
  }

  function StreamOf(h: seq<Byte>): nat
    requires |h| >= HEADER_SIZE
  {
    (h[5] as int) % 128 * 0x100_0000 + (h[6] as int) * 0x1_0000 + (h[7] as int) * 256 + h[8]
  }

  function TypeOf(code: nat): Option<FrameType> {
    if code == 0 then Some(Data) else if code == 1 then Some(Headers) else if code == 2 then Some(Priority)
    else if code == 3 then Some(RstStream) else if code == 4 then Some(Settings) else if code == 5 then Some(PushPromise)
    else if code == 6 then Some(Ping) else if code == 7 then Some(Goaway) else if code == 8 then Some(WindowUpdate)
    else if code == 9 then Some(Continuation) else None
  }

  /** A receiver's reading of a byte stream; None when it is not a sequence of frames. */
  function Deframed(bytes: seq<Byte>): Option<seq<Frame>> {
    if bytes == [] then Some([])
    else if |bytes| < HEADER_SIZE then None
    else
      var end := HEADER_SIZE + LengthOf(bytes);
      if end > |bytes| then None else
        match (TypeOf(bytes[3]), Deframed(bytes[end..]))
        case (Some(t), Some(rest)) => Some([Frame(t, bytes[4], StreamOf(bytes), bytes[HEADER_SIZE..end])] + rest)
        case _ => None
  }

  /** A stream identifier has 31 bits, and the source keeps it in 32. */
  const STREAMS: nat := 0x8000_0000
  const STREAM_WORDS: nat := 0x1_0000_0000

  /** What a receiver takes for the stream identifier: without the reserved bit at the top
      and without the bit that is lost. */
  function StreamOnWire(stream: nat): nat {
    stream / 256 % 0x80_0000 * 256 + stream % 128
  }

  lemma HeaderFields(length: nat, t: FrameType, flags: Byte, stream: nat)
    requires length < 0x100_0000 && stream < STREAM_WORDS
    ensures var h := Header(length, t, flags, stream);
      LengthOf(h) == length && TypeOf(h[3]) == Some(t) && h[4] == flags && StreamOf(h) == StreamOnWire(stream)
  {
    StreamBytes(stream);
    LengthBytes(length);
  }

  lemma LengthBytes(length: nat)
    requires length < 0x100_0000
    ensures length / 0x1_0000 % 256 * 0x1_0000 + length / 256 % 256 * 256 + length % 256 == length
  {
    assert length / 0x1_0000 == length / 256 / 256;
  }

  lemma By128(q: nat, r: nat)
    requires r < 128
    ensures (q * 128 + r) % 128 == r
  {
  }

  lemma By256(q: nat, r: nat)
    requires r < 256
    ensures (q * 256 + r) / 256 == q && (q * 256 + r) % 256 == r
  {
  }

  lemma By23Bits(q: nat, r: nat)
    requires r < 0x80_0000
    ensures (q * 0x80_0000 + r) % 0x80_0000 == r
  {
  }

  /** Three bytes without their top bit. */
  lemma LowBits(first: nat, second: nat, third: nat)
    requires second < 256 && third < 256
    ensures (first * 0x1_0000 + second * 256 + third) % 0x80_0000 == first % 128 * 0x1_0000 + second * 256 + third
  {
    var low := first % 128 * 0x1_0000 + second * 256 + third;
    assert first * 0x1_0000 + second * 256 + third == first / 128 * 0x80_0000 + low;
    By23Bits(first / 128, low);
  }

  lemma StreamBytes(stream: nat)
    requires stream < STREAM_WORDS
    ensures stream / 256 / 256 / 256 % 256 % 128 * 0x100_0000 + stream / 256 / 256 % 256 * 0x1_0000
          + stream / 256 % 256 * 256 + stream % 128 == StreamOnWire(stream)
  {
    var a := stream / 256;
    var b := a / 256;
    LowBits(b / 256, b % 256, a % 256);
    assert a == b / 256 * 0x1_0000 + b % 256 * 256 + a % 256;
    assert b / 256 < 256;
  }

  lemma OnWireIsSame(stream: nat)
    requires stream < STREAM_WORDS
    ensures StreamOnWire(stream) == stream <==> stream < STREAMS && stream % 256 < 128
  {
    assert stream == stream / 256 * 256 + stream % 256;
    assert stream % 128 == if stream % 256 < 128 then stream % 256 else stream % 256 - 128;
    assert stream / 256 % 0x80_0000 == if stream < STREAMS then stream / 256 else stream / 256 - 0x80_0000;
  }

  /** The receiver of a header finds the stream that was set if and only if its low byte is
      below 128. */
  lemma StreamKeptIff(length: nat, t: FrameType, flags: Byte, stream: nat)
    requires length < 0x100_0000 && stream < STREAMS
    ensures StreamOf(Header(length, t, flags, stream)) == stream <==> stream % 256 < 128
  {
    HeaderFields(length, t, flags, stream);
    OnWireIsSame(stream);
  }

  ghost predicate Sendable(f: Frame) {
    |f.payload| < 0x100_0000 && f.stream < STREAM_WORDS
  }

  function OnWire(f: Frame): Frame {
    f.(stream := StreamOnWire(f.stream))
  }

  function AllOnWire(frames: seq<Frame>): (r: seq<Frame>)
    ensures |r| == |frames| && forall i :: 0 <= i < |frames| ==> r[i] == OnWire(frames[i])
  {
    seq(|frames|, i requires 0 <= i < |frames| => OnWire(frames[i]))
  }

  lemma DeframeOne(f: Frame, rest: seq<Byte>)
    requires Sendable(f)
    ensures Deframed(Serialized(f) + rest)
         == match Deframed(rest) case None => None case Some(frames) => Some([OnWire(f)] + frames)
  {
    var bytes, n := Serialized(f) + rest, |f.payload|;
    HeaderFields(n, f.frameType, f.flags, f.stream);
    assert LengthOf(bytes) == n && StreamOf(bytes) == StreamOnWire(f.stream);
    assert bytes[HEADER_SIZE..HEADER_SIZE + n] == f.payload && bytes[HEADER_SIZE + n..] == rest;
  }

  /** A receiver finds the frames that were sent, in order, on the streams as they are on
      the wire. */
  lemma {:induction false} DeframeAll(frames: seq<Frame>)
    requires forall i :: 0 <= i < |frames| ==> Sendable(frames[i])
    ensures Deframed(Wire(frames)) == Some(AllOnWire(frames))
    decreases |frames|
  {
    if frames == [] {
      assert AllOnWire(frames) == [];
    } else {
      DeframeAll(frames[1..]);
      DeframeOne(frames[0], Wire(frames[1..]));
      assert [OnWire(frames[0])] + AllOnWire(frames[1..]) == AllOnWire(frames);
    }
  }

  /** The frame types in the order of their numbers (section 11.2 of RFC 7540). */
  const FRAME_TYPES: seq<FrameType> :=
    [Data, Headers, Priority, RstStream, Settings, PushPromise, Ping, Goaway, WindowUpdate, Continuation]

  lemma TypeNumbers(t: FrameType)
    ensures FRAME_TYPES[TypeCode(t)] == t && TypeOf(TypeCode(t)) == Some(t)
  {
  }

  /** The nine bytes of a header: three of the length, the type, the flags, and four of the
      stream, each with its high byte first. */
  lemma HeaderBytes(l0: Byte, l1: Byte, l2: Byte, t: FrameType, flags: Byte, s0: Byte, s1: Byte, s2: Byte, s3: Byte)
    requires s3 < 128
    ensures Header(l0 * 0x1_0000 + l1 * 256 + l2, t, flags, s0 * 0x100_0000 + s1 * 0x1_0000 + s2 * 256 + s3)
         == [l0, l1, l2, TypeCode(t), flags, s0, s1, s2, s3]
  {
    By256(l0, l1);
    By256(l0 * 256 + l1, l2);
    By256(s0, s1);
    By256(s0 * 256 + s1, s2);
    By256(s0 * 0x1_0000 + s1 * 256 + s2, s3);
    By128(2 * (s0 * 0x1_0000 + s1 * 256 + s2), s3);
    assert (l0 * 0x1_0000 + l1 * 256 + l2) / 0x1_0000 == l0;
  }

  // ----- splitting a file -----

  const PAYLOAD_SIZE: nat := FRAME_SIZE - HEADER_SIZE

  /** The DATA frames of a file: full ones, and a last one that ends the stream. */
  function DataFramesOf(data: seq<Byte>, stream: nat): seq<Frame>
    decreases |data|
  {
    if |data| + HEADER_SIZE > FRAME_SIZE then
      [Frame(Data, NONE, stream, data[..PAYLOAD_SIZE])] + DataFramesOf(data[PAYLOAD_SIZE..], stream)
    else [Frame(Data, END_STREAM, stream, data)]
  }

  function Payloads(frames: seq<Frame>): seq<Byte> {
    if frames == [] then [] else frames[0].payload + Payloads(frames[1..])
  }

  /** A DATA frame of the stream: 16384 bytes with its header, or up to as many for the last
      one, which alone has the flag END_STREAM. */
  predicate GoodDataFrame(f: Frame, stream: nat, isLast: bool) {
    && f.frameType == Data && f.stream == stream
    && (if isLast then 9 + |f.payload| <= 16384 else 9 + |f.payload| == 16384)
    && f.flags == if isLast then 1 else 0
  }

  /** The payloads are the file; each frame is a DATA frame of the stream, all but the last
      one are 16384 bytes long, and the last one alone ends the stream (section 6.1 of
      RFC 7540). */
  lemma {:induction false} SplitIsRight(data: seq<Byte>, stream: nat)
    ensures var frames := DataFramesOf(data, stream);
      && frames != [] && Payloads(frames) == data
      && forall i :: 0 <= i < |frames| ==> GoodDataFrame(frames[i], stream, i == |frames| - 1)
    decreases |data|
  {
    var frames := DataFramesOf(data, stream);
    if |data| + HEADER_SIZE <= FRAME_SIZE {
    } else {
      var rest := DataFramesOf(data[PAYLOAD_SIZE..], stream);
      SplitIsRight(data[PAYLOAD_SIZE..], stream);
      assert frames[1..] == rest;
      assert Payloads(frames) == data[..PAYLOAD_SIZE] + data[PAYLOAD_SIZE..];
      forall i | 0 <= i < |frames| ensures GoodDataFrame(frames[i], stream, i == |frames| - 1) {
        assert i > 0 ==> frames[i] == rest[i - 1];
      }
    }
  }

  /** What a receiver of the bytes takes apart are DATA frames of one stream with the
      content of the file, of which the last one alone ends the stream. */
  ghost predicate Carries(bytes: seq<Byte>, data: seq<Byte>, stream: nat) {
    var received := Deframed(bytes);
    && received.Some? && received.value != [] && Payloads(received.value) == data
    && forall i :: 0 <= i < |received.value| ==> GoodDataFrame(received.value[i], stream, i == |received.value| - 1)
  }

  lemma ReceivedFile(data: seq<Byte>, stream: nat)
    requires stream < STREAM_WORDS
    ensures Carries(Wire(DataFramesOf(data, stream)), data, StreamOnWire(stream))
  {
    var frames := DataFramesOf(data, stream);
    SplitIsRight(data, stream);
    forall i | 0 <= i < |frames| ensures Sendable(frames[i]) {
      assert GoodDataFrame(frames[i], stream, i == |frames| - 1);
    }
    DeframeAll(frames);
    PayloadsOnWire(frames);
    var received := AllOnWire(frames);
    forall i | 0 <= i < |received| ensures GoodDataFrame(received[i], StreamOnWire(stream), i == |received| - 1) {
      assert GoodDataFrame(frames[i], stream, i == |frames| - 1);
    }
  }

  lemma CarriesOneStream(bytes: seq<Byte>, data: seq<Byte>, s: nat, t: nat)
    requires Carries(bytes, data, s) && Carries(bytes, data, t)
    ensures s == t
  {
    var received := Deframed(bytes).value;
    assert GoodDataFrame(received[0], s, |received| == 1) && GoodDataFrame(received[0], t, |received| == 1);
  }

  lemma ReceivedOn(data: seq<Byte>, stream: nat, t: nat)
    requires stream < STREAM_WORDS
    ensures Carries(Wire(DataFramesOf(data, stream)), data, t) <==> t == StreamOnWire(stream)
  {
    ReceivedFile(data, stream);
    if Carries(Wire(DataFramesOf(data, stream)), data, t) {
      CarriesOneStream(Wire(DataFramesOf(data, stream)), data, t, StreamOnWire(stream));
    }
  }

  // ----- the request that is answered -----

  /** `get_stream_identifier` on the header of a frame received: the reserved bit that
      `stream_identifier` leaves out is the top one of the little-endian word. */
  function RequestStream(h: seq<Byte>): (stream: nat)
    requires |h| >= HEADER_SIZE
    ensures stream < STREAM_WORDS
  {
    (h[5] as int) * 0x100_0000 + (h[6] as int) * 0x1_0000 + (h[7] as int) * 256 + (h[8] as int) % 128
  }

  lemma RequestOnWire(h: seq<Byte>)
    requires |h| == HEADER_SIZE
    ensures StreamOnWire(RequestStream(h)) == StreamOf(h) - if h[8] < 128 then 0 else 128
  {
    var first: nat, second: nat, third: nat, low: nat := h[5], h[6], h[7], h[8] % 128;
    var a := first * 0x1_0000 + second * 256 + third;
    LowBits(first, second, third);
    By256(a, low);
    By128(2 * a, low);
    assert RequestStream(h) == a * 256 + low;
  }

  /** End to end: whatever frame header a request came with, the DATA frames that answer it
      carry the file, and they do so on the stream of the request if and only if the low
      byte of its identifier is below 128; otherwise on the one that is 128 less. */
  lemma AnsweredOnItsStreamIff(h: seq<Byte>, data: seq<Byte>, t: nat)
    requires |h| == HEADER_SIZE
    ensures Carries(Wire(DataFramesOf(data, RequestStream(h))), data, t)
       <==> t == StreamOf(h) - if h[8] < 128 then 0 else 128
  {
    ReceivedOn(data, RequestStream(h), t);
    RequestOnWire(h);
  }

  /** A request on stream 129 is answered on stream 1, and not on 129. */
  lemma Stream129(h: seq<Byte>, data: seq<Byte>)
    requires |h| == HEADER_SIZE && StreamOf(h) == 129
    ensures var bytes := Wire(DataFramesOf(data, RequestStream(h)));
      Carries(bytes, data, 1) && !Carries(bytes, data, 129)
  {
    assert h[8] == 129;
    AnsweredOnItsStreamIff(h, data, 1);
    AnsweredOnItsStreamIff(h, data, 129);
  }

  lemma {:induction false} PayloadsOnWire(frames: seq<Frame>)
    ensures Payloads(AllOnWire(frames)) == Payloads(frames)
    decreases |frames|
  {
    if frames == [] {
    } else {
      PayloadsOnWire(frames[1..]);
      assert AllOnWire(frames)[1..] == AllOnWire(frames[1..]);
    }
  }
}
