/** Reading packets from a non-blocking socket and sending to one, whatever the kernel returns. */
module PacketIo {
  import opened PacketCodec

  // ------------------------------------------------- framing and chunking

  /** A connection's input side: the packets submitted so far, the bytes kept, and whether it was
      closed for a bad length. */
  datatype Intake = Intake(submitted: seq<string>, residue: string, failed: bool)

  /** One readable event that delivers `chunk` and ends in EAGAIN. A batch that ends in a protocol
      error is discarded with the connection. */
  function Feed(intake: Intake, chunk: string, max: nat): Intake {
    if intake.failed then intake
    else
      var d := Decode(intake.residue + chunk, max);
      if d.bad then intake.(residue := d.rest, failed := true)
      else Intake(intake.submitted + d.packets, d.rest, false)
  }

  function FeedAll(chunks: seq<string>, max: nat): Intake {
    if chunks == [] then Intake([], "", false)
    else Feed(FeedAll(chunks[..|chunks| - 1], max), chunks[|chunks| - 1], max)
  }

  function Concat(chunks: seq<string>): string {
    if chunks == [] then "" else Concat(chunks[..|chunks| - 1]) + chunks[|chunks| - 1]
  }

  /** How the stream was cut into reads does not matter: without a bad length the packets and the
      residue are those of one decode of the whole stream; the connection fails exactly when the
      whole stream has a bad length, and what was submitted until then is a prefix. */
  lemma {:induction false} ChunkingIndependence(chunks: seq<string>, max: nat)
    ensures var whole := Decode(Concat(chunks), max);
            var intake := FeedAll(chunks, max);
            && intake.failed == whole.bad
            && (if whole.bad then intake.submitted <= whole.packets
                else intake == Intake(whole.packets, whole.rest, false))
  {
    if chunks != [] {
      var n := |chunks| - 1;
      ChunkingIndependence(chunks[..n], max);
      DecodeAppend(Concat(chunks[..n]), chunks[n], max);
    }
  }

  // ---------------------------------------------------------------- recv

  /** One return of `recv`. `Received("")` is the end of the stream. */
  datatype RecvCall = Received(chunk: string) | RecvInterrupted | RecvAgain | RecvFailed

  datatype RecvStatus = RecvOk | RecvWouldBlock | RecvClosed | RecvProtocolError | RecvIoError

  datatype RecvResult = RecvResult(status: RecvStatus, packets: seq<string>, buffer: string)

  datatype ReadEnd = Drained | PeerClosed | Broken

  /** What reading until the socket has nothing more delivers, for any script of the kernel. A
      script that runs out is one whose next answer is EAGAIN. */
  function ReadAll(calls: seq<RecvCall>): (ReadEnd, string) {
    if calls == [] then (Drained, "")
    else match calls[0]
      case Received(chunk) =>
        if chunk == "" then (PeerClosed, "") else var (end, data) := ReadAll(calls[1..]); (end, chunk + data)
      case RecvInterrupted => ReadAll(calls[1..])
      case RecvAgain => (Drained, "")
      case RecvFailed => (Broken, "")
  }

  function Receive(calls: seq<RecvCall>, buffer: string, max: nat): RecvResult {
    var (end, data) := ReadAll(calls);
    match end
    case PeerClosed => RecvResult(RecvClosed, [], buffer + data)
    case Broken => RecvResult(RecvIoError, [], buffer + data)
    case Drained =>
      var d := Decode(buffer + data, max);
      RecvResult(if d.bad then RecvProtocolError else if d.packets == [] then RecvWouldBlock else RecvOk,
                 d.packets, d.rest)
  }

  method RecvPackets(calls: seq<RecvCall>, readBuffer: string, max: nat) returns (result: RecvResult)
    ensures result == Receive(calls, readBuffer, max)
  {
    var buffer, i := readBuffer, 0;
    while true
      invariant 0 <= i <= |calls|
      invariant var (end, data) := ReadAll(calls);
                var (end', data') := ReadAll(calls[i..]);
                end == end' && readBuffer + data == buffer + data'
      decreases |calls| - i
    {
      if i == |calls| || calls[i].RecvAgain? {
        break;
      } else if calls[i].RecvInterrupted? {
        i := i + 1;
      } else if calls[i].RecvFailed? {
        return RecvResult(RecvIoError, [], buffer);
      } else if calls[i].chunk == "" {
        return RecvResult(RecvClosed, [], buffer);
      } else {
        assert buffer + ReadAll(calls[i..]).1 == (buffer + calls[i].chunk) + ReadAll(calls[i..][1..]).1;
        buffer := buffer + calls[i].chunk;
        i := i + 1;
      }
    }
    assert ReadAll(calls).0 == Drained;
    assert readBuffer + ReadAll(calls).1 == buffer;
    var packets, bad;
    packets, buffer, bad := TakeFrames(buffer, max);
    return RecvResult(if bad then RecvProtocolError else if packets == [] then RecvWouldBlock else RecvOk, packets, buffer);
  }

  /** The extraction loop: it erases each complete frame from the front of the buffer. */
  method TakeFrames(readBuffer: string, max: nat) returns (packets: seq<string>, buffer: string, bad: bool)
    ensures Decoded(packets, buffer, bad) == Decode(readBuffer, max)
  {
    packets, buffer := [], readBuffer;
    while |buffer| >= HEADER_SIZE
      invariant var d := Decode(buffer, max);
                Decode(readBuffer, max) == Decoded(packets + d.packets, d.rest, d.bad)
      decreases |buffer|
    {
      var n := HeaderValue(buffer);
      if n == 0 || n > max {
        return packets, buffer, true;
      }
      var frameSize := HEADER_SIZE + n;
      if |buffer| < frameSize {
        break;
      }
      assert HasFrame(buffer, max) && FrameSize(buffer) == frameSize;
      packets := packets + [buffer[HEADER_SIZE..frameSize]];
      buffer := buffer[frameSize..];
    }
    return packets, buffer, false;
  }

  // ---------------------------------------------------------------- send

  /** One return of `send`: how many bytes were taken, or why none were. */
  datatype SendCall = Took(count: nat) | SendInterrupted | SendAgain | SendFailed

  datatype SendStatus = SendOk | SendWouldBlock | SendIoError

  datatype SendResult = SendResult(status: SendStatus, sent: nat)

  /** The outcome of sending `size` bytes of which `sent` are out, for any script of the kernel. */
  function Sending(sent: nat, size: nat, calls: seq<SendCall>): (r: SendResult)
    requires sent <= size
    ensures sent <= r.sent <= size
    ensures r.status.SendOk? <==> r.sent == size
    decreases |calls|
  {
    if sent == size then SendResult(SendOk, size)
    else if calls == [] then SendResult(SendWouldBlock, sent)
    else match calls[0]
      case Took(count) =>
        if count == 0 then SendResult(SendIoError, sent)
        else Sending(if sent + count < size then sent + count else size, size, calls[1..])
      case SendInterrupted => Sending(sent, size, calls[1..])
      case SendAgain => SendResult(SendWouldBlock, sent)
      case SendFailed => SendResult(SendIoError, sent)
  }

  /** `taken` is what the kernel took, call by call: always the first `sent` bytes of the data. */
  method SendAll(data: string, calls: seq<SendCall>) returns (result: SendResult, ghost taken: string)
    ensures result == Sending(0, |data|, calls)
    ensures taken == data[..result.sent]
  {
    var sent, i := 0, 0;
    taken := "";
    while sent < |data|
      invariant 0 <= i <= |calls| && 0 <= sent <= |data|
      invariant Sending(0, |data|, calls) == Sending(sent, |data|, calls[i..])
      invariant taken == data[..sent]
      decreases |calls| - i, |data| - sent
    {
      assert i < |calls| ==> calls[i..][0] == calls[i] && calls[i..][1..] == calls[i + 1..];
      if i == |calls| || calls[i].SendAgain? {
        return SendResult(SendWouldBlock, sent), taken;
      } else if calls[i].SendInterrupted? {
        i := i + 1;
      } else if calls[i].SendFailed? || calls[i].count == 0 {
        return SendResult(SendIoError, sent), taken;
      } else {
        var upTo := if sent + calls[i].count < |data| then sent + calls[i].count else |data|;
        taken := taken + data[sent..upTo];
        sent := upTo;
        i := i + 1;
      }
    }
    result := SendResult(SendOk, sent);
  }
}
