/** What each step of the reactor does to the connection it is about: exactly when it closes it, and
    what it leaves otherwise. */
module ServerOutcomes {
  import opened Wrappers
  import opened PacketCodec
  import opened PacketIo
  import opened ServerState
  import opened ServerInvariant
  import opened ServerTheorems

  // ------------------------------------------------------------ system calls

  /** A `recv` loop goes on after this return. */
  predicate ReadsOn(call: RecvCall) {
    call.RecvInterrupted? || (call.Received? && call.chunk != "")
  }

  /** The bytes of the first `k` returns, put together. */
  function Delivered(calls: seq<RecvCall>, k: nat): string
    requires k <= |calls|
  {
    if k == 0 then ""
    else Delivered(calls, k - 1) + if calls[k - 1].Received? then calls[k - 1].chunk else ""
  }

  lemma {:induction false} DeliveredLater(calls: seq<RecvCall>, k: nat)
    requires 1 <= k <= |calls|
    ensures Delivered(calls, k) == (if calls[0].Received? then calls[0].chunk else "") + Delivered(calls[1..], k - 1)
  {
    if k > 1 {
      DeliveredLater(calls, k - 1);
      assert calls[1..][k - 2] == calls[k - 1];
    }
  }

  /** Reading goes on until the first other return, `stop`, which says how it ends; no byte that came
      before is lost. */
  lemma {:induction false} ReadStopsAt(calls: seq<RecvCall>, stop: nat)
    requires stop <= |calls| && (forall i :: 0 <= i < stop ==> ReadsOn(calls[i]))
    requires stop < |calls| ==> !ReadsOn(calls[stop])
    ensures ReadAll(calls).1 == Delivered(calls, stop)
    ensures ReadAll(calls).0.Drained? <==> stop == |calls| || calls[stop].RecvAgain?
    ensures ReadAll(calls).0.PeerClosed? <==> stop < |calls| && calls[stop] == Received("")
    decreases |calls|
  {
    if stop > 0 {
      assert forall i :: 0 <= i < stop - 1 ==> calls[1..][i] == calls[i + 1];
      assert stop < |calls| ==> calls[1..][stop - 1] == calls[stop];
      ReadStopsAt(calls[1..], stop - 1);
      DeliveredLater(calls, stop);
    }
  }

  /** A `send` loop goes on after this return. */
  predicate SendsOn(call: SendCall) {
    call.SendInterrupted? || (call.Took? && call.count > 0)
  }

  /** The bytes the kernel is ready to take in the first `k` calls. */
  function Room(calls: seq<SendCall>, k: nat): nat
    requires k <= |calls|
  {
    if k == 0 then 0 else Room(calls, k - 1) + if calls[k - 1].Took? then calls[k - 1].count else 0
  }

  lemma {:induction false} RoomLater(calls: seq<SendCall>, k: nat)
    requires 1 <= k <= |calls|
    ensures Room(calls, k) == (if calls[0].Took? then calls[0].count else 0) + Room(calls[1..], k - 1)
  {
    if k > 1 {
      RoomLater(calls, k - 1);
      assert calls[1..][k - 2] == calls[k - 1];
    }
  }

  /** Sending takes all the room there is until the first other return, `stop`, which decides whether
      the rest has to wait or is lost. */
  lemma {:induction false} SendStopsAt(sent: nat, size: nat, calls: seq<SendCall>, stop: nat)
    requires sent <= size && stop <= |calls| && (forall i :: 0 <= i < stop ==> SendsOn(calls[i]))
    requires stop < |calls| ==> !SendsOn(calls[stop])
    ensures var r := Sending(sent, size, calls);
            && r.sent == (if sent + Room(calls, stop) < size then sent + Room(calls, stop) else size)
            && (r.status.SendWouldBlock? <==> r.sent < size && (stop == |calls| || calls[stop].SendAgain?))
    decreases |calls|
  {
    if stop > 0 {
      assert forall i :: 0 <= i < stop - 1 ==> calls[1..][i] == calls[i + 1];
      assert stop < |calls| ==> calls[1..][stop - 1] == calls[stop];
      RoomLater(calls, stop);
      var next := sent + if calls[0].Took? then calls[0].count else 0;
      if next <= size {
        SendStopsAt(next, size, calls[1..], stop - 1);
      } else {
        SendStopsAt(size, size, calls[1..], stop - 1);
      }
    }
  }

  // ------------------------------------------------------------ accepting

  /** A client is taken in exactly when epoll takes its descriptor: with the next id, nothing buffered,
      and heard from now. No other connection notices; a refused descriptor is not left open. */
  lemma AcceptOutcome(net: Net, fd: int, registered: bool, now: int, limits: Limits)
    requires Invariant(net, limits) && fd !in net.kernel.open
    ensures var after, id := net.Accept(fd, registered, now), net.nextId;
            && after.nextId == id + 1 && id !in net.connections
            && (id in after.connections <==> registered)
            && (registered ==>
                  && after.FindByFd(fd) == Some(id) && after.connections[id].fd == fd && !after.connections[id].closing
                  && after.connections[id].readBuffer == after.connections[id].writeBuffer == ""
                  && after.connections[id].lastActive == now)
            && (fd in after.kernel.open <==> registered)
            && (forall other :: other in net.connections ==>
                  other in after.connections && after.connections[other] == net.connections[other])
            && (forall other :: other in after.connections && other != id ==> other in net.connections)
            && SameWaiting(net, after)
  {
    hide Flowing, Accounted, Queued;
    assert forall other :: other in net.connections ==> Wired(net, other);
  }

  /** No queue changed, not even that of the workers. */
  ghost predicate SameWaiting(net: Net, after: Net) {
    && after.responses == net.responses && after.closes == net.closes
    && after.pending == net.pending && after.pendingCloses == net.pendingCloses
    && after.work == net.work
    && after.history.pushed == net.history.pushed && after.history.taken == net.history.taken
  }

  // ------------------------------------------------------------ reading

  /** A read makes the reactor give the connection up. */
  predicate ReadFails(buffer: string, calls: seq<RecvCall>, queued: bool, limits: Limits) {
    var (end, data) := ReadAll(calls);
    var d := Decode(buffer + data, MAX_PAYLOAD);
    !end.Drained? || d.bad || |d.rest| > limits.maxRead || (d.packets != [] && !queued)
  }

  /** What a read does. The connection is closed exactly if the peer or the socket is gone, a length is
      refused, the incomplete rest is above the limit, or the pool takes no more batches. Otherwise
      the complete packets of buffer and input go to the workers as one batch, if there are any; the
      rest is kept; and the connection counts as heard from now exactly if there were packets. */
  lemma ReadOutcome(
    net: Net, fd: int, id: nat, calls: seq<RecvCall>, now: int, queued: bool, limits: Limits)
    requires Invariant(net, limits) && net.FindByFd(fd) == Some(id) && !net.connections[id].closing
    ensures var c, after := net.connections[id], net.HandleClientRead(fd, calls, now, queued, limits);
            var d := Decode(c.readBuffer + ReadAll(calls).1, MAX_PAYLOAD);
            && (id !in after.connections <==> ReadFails(c.readBuffer, calls, queued, limits))
            && (forall other :: other != id ==>
                  (other in after.connections <==> other in net.connections) &&
                  (other in net.connections ==> after.connections[other] == net.connections[other]))
            && id in net.history.submitted && id in after.history.submitted
            && (if id in after.connections then
                  && after.connections[id] ==
                     c.(readBuffer := d.rest, lastActive := if d.packets == [] then c.lastActive else now)
                  && after.work == net.work + (if d.packets == [] then [] else [Batch(id, id, [], d.packets)])
                  && after.history.submitted[id] == net.history.submitted[id] + d.packets
                else
                  after.work == net.work && after.history.submitted == net.history.submitted)
  {
    hide Decode, ReadAll, Flowing, Accounted, Queued;
    IsLogged(net, limits, id);
    assert Wired(net, id);
  }

  lemma IsLogged(net: Net, limits: Limits, id: nat)
    requires Invariant(net, limits) && id in net.connections
    ensures id in net.kernel.wire && id in net.history.submitted
  {
    hide Flowing, Queued;
    assert Wired(net, id) && Accounted(net, id);
  }

  /** Input for a connection that is closing, or for a descriptor without a connection, is ignored. */
  lemma ReadIgnored(net: Net, fd: int, calls: seq<RecvCall>, now: int, queued: bool, limits: Limits)
    requires net.FindByFd(fd).None? || net.connections[net.FindByFd(fd).value].closing
    ensures net.HandleClientRead(fd, calls, now, queued, limits) == net
  {
  }

  // ------------------------------------------------------------ sending

  /** The bytes of a payload that go out at once. */
  function SentAtOnce(c: Connection, data: string, calls: seq<SendCall>): (sent: nat)
    ensures sent <= |Frame(data)|
  {
    if c.writeBuffer == "" then Sending(0, |Frame(data)|, calls).sent else 0
  }

  /** What handling a response to a live connection does, when the payload can be framed. What the
      kernel takes of the frame is on the wire, whether or not the connection stays; if it stays,
      everything else is buffered behind what was, and it is closing from now on exactly if it was or
      the response asked for it. */
  lemma ResponseOutcome(net: Net, id: nat, calls: seq<SendCall>, ctlOk: bool, limits: Limits)
    requires Invariant(net, limits) && net.pending != [] && net.pending[0].connectionId == id
    requires id in net.connections && Encodable(net.pending[0].data)
    ensures var response, after := net.pending[0], net.HandleResponse(calls, ctlOk, limits);
            var c, frame := net.connections[id], Frame(response.data);
            var sent := SentAtOnce(c, response.data, calls);
            && id in net.kernel.wire && id in after.kernel.wire
            && after.kernel.wire[id] == net.kernel.wire[id] + frame[..sent]
            && (id in after.connections ==>
                  after.connections[id] ==
                  c.(writeBuffer := c.writeBuffer + frame[sent..], closing := c.closing || response.closeAfterSend))
            && (forall other :: other != id ==>
                  (other in after.connections <==> other in net.connections) &&
                  (other in net.connections ==> after.connections[other] == net.connections[other]))
  {
    hide Decode, DataFor, EncodeAll, Frame, Flowing, Accounted, Queued, Net.SendToClient;
    GenerationNeverDecides(net, limits);
    IsLogged(net, limits, id);
    assert Wired(net, id);
    SendOutcomeExact(AfterTake(net), id, net.pending[0].data, calls, ctlOk, limits);
    BothEnds(net.connections[id], net.pending[0].data);
  }

  lemma BothEnds(c: Connection, data: string)
    ensures c.writeBuffer + Frame(data)[|Frame(data)|..] == c.writeBuffer
  {
  }

  lemma SendOutcomeExact(net: Net, id: nat, data: string, calls: seq<SendCall>, ctlOk: bool, limits: Limits)
    requires id in net.connections && Wired(net, id) && Encodable(data) && id in net.kernel.wire
    ensures var (after, ok) := net.SendToClient(id, data, calls, ctlOk, limits);
            var c, frame := net.connections[id], Frame(data);
            var sent := SentAtOnce(c, data, calls);
            && OnlyTouches(net, after, id)
            && id in after.kernel.wire && after.kernel.wire[id] == net.kernel.wire[id] + frame[..sent]
            && (ok ==> after.connections[id] == c.(writeBuffer := c.writeBuffer + frame[sent..]))
  {
    hide Frame;
    SendTouches(net, id, data, calls, ctlOk, limits);
    var c, frame := net.connections[id], Frame(data);
    assert net.kernel.wire[id] + "" == net.kernel.wire[id] && frame[..0] == "" && frame[0..] == frame;
    assert c.writeBuffer == "" ==> forall n :: 0 <= n <= |frame| ==> c.writeBuffer + frame[n..] == frame[n..];
    assert frame[|frame|..] == "";
  }

  // ------------------------------------------------------------ flushing

  /** What a flush does: the kernel gets what it takes of the buffer; the connection is closed exactly on
      an error, or when everything is out and it was closing or EPOLLOUT cannot be switched off; else
      it keeps exactly the rest. */
  lemma FlushOutcome(net: Net, fd: int, id: nat, calls: seq<SendCall>, ctlOk: bool, limits: Limits)
    requires Invariant(net, limits) && net.FindByFd(fd) == Some(id) && net.connections[id].writeBuffer != ""
    ensures var c, after := net.connections[id], net.FlushWriteBuffer(fd, calls, ctlOk);
            var r := Sending(0, |c.writeBuffer|, calls);
            && id in net.kernel.wire && id in after.kernel.wire
            && after.kernel.wire[id] == net.kernel.wire[id] + c.writeBuffer[..r.sent]
            && (id !in after.connections <==>
                  r.status.SendIoError? || (r.status.SendOk? && (c.closing || !ctlOk)))
            && (id in after.connections ==> after.connections[id] == c.(writeBuffer := c.writeBuffer[r.sent..]))
            && (forall other :: other != id ==>
                  (other in after.connections <==> other in net.connections) &&
                  (other in net.connections ==> after.connections[other] == net.connections[other]))
            && SameWaiting(net, after)
  {
    hide Decode, DataFor, EncodeAll, Frame, Flowing, Accounted, Queued;
    IsLogged(net, limits, id);
    assert Wired(net, id);
  }

  /** A descriptor without unsent bytes, or without a connection, has nothing to flush. */
  lemma FlushIgnored(net: Net, fd: int, calls: seq<SendCall>, ctlOk: bool)
    requires net.FindByFd(fd).None? || net.connections[net.FindByFd(fd).value].writeBuffer == ""
    ensures net.FlushWriteBuffer(fd, calls, ctlOk) == net
  {
  }

  // ------------------------------------------------------------ processing

  /** A worker's step moves exactly the first waiting packet of its batch to the handled ones. */
  lemma ProcessOutcome(net: Net, b: nat, outbound: seq<Outbound>, limits: Limits)
    requires b < |net.work| && net.work[b].packets != []
    ensures var before, after := net.work[b], net.ProcessPacket(b, outbound, limits);
            && |after.work| == |net.work| && after.connections == net.connections && after.kernel == net.kernel
            && [before.packets[0]] + after.work[b].packets == before.packets
            && after.work[b].handled == before.handled + [before.packets[0]]
            && after.work[b].connectionId == before.connectionId
            && (forall i :: 0 <= i < |net.work| && i != b ==> after.work[i] == net.work[i])
  {
    hide QueueEntries;
  }

  // ------------------------------------------------------------ being heard from

  /** A step in which connection `id` is heard from: it is accepted, or sends packets. */
  ghost predicate Heard(before: Net, step: Step, after: Net, id: nat) {
    || (step.Accepted? && id == before.nextId)
    || (step.Readable? && id in before.history.submitted && id in after.history.submitted
        && after.history.submitted[id] != before.history.submitted[id])
  }

  /** When connection `id` was last heard from in a run. */
  ghost function LastHeard(states: seq<Net>, steps: seq<Step>, k: nat, id: nat): int
    requires k <= |steps| < |states|
  {
    if k == 0 then 0
    else if Heard(states[k - 1], steps[k - 1], states[k], id) then steps[k - 1].now
    else LastHeard(states, steps, k - 1, id)
  }

  /** The time a connection carries is the time it was last heard from. */
  lemma {:induction false} TimeIsLastHeard(states: seq<Net>, steps: seq<Step>, limits: Limits, k: nat, id: nat)
    requires Run(states, steps, limits) && k < |states| && id in states[k].connections
    ensures states[k].connections[id].lastActive == LastHeard(states, steps, k, id)
  {
    hide Invariant, Heard;
    if k > 0 {
      Always(states, steps, limits, k - 1);
      assert Next(states[k - 1], steps[k - 1], states[k], limits);
      StepTime(states[k - 1], steps[k - 1], limits, id);
      if id in states[k - 1].connections {
        TimeIsLastHeard(states, steps, limits, k - 1, id);
      }
    }
  }

  /** The connections keep their times, except that `id` may have been heard from. */
  lemma StepTime(net: Net, step: Step, limits: Limits, id: nat)
    requires Invariant(net, limits) && Enabled(net, step) && id in Apply(net, step, limits).connections
    ensures var after := Apply(net, step, limits);
            if Heard(net, step, after, id) then after.connections[id].lastActive == step.now
            else id in net.connections && after.connections[id].lastActive == net.connections[id].lastActive
  {
    hide Queued, Flowing, Accounted, Net.HandleResponse, Net.FlushWriteBuffer, Net.HandleClientRead;
    match step
    case Respond(calls, ctlOk) => RespondTime(net, calls, ctlOk, limits, id);
    case Writable(fd, calls, ctlOk) => FlushTime(net, fd, calls, ctlOk, limits, id);
    case Readable(fd, received, now, queued) =>
      if net.FindByFd(fd).Some? && !net.connections[net.FindByFd(fd).value].closing {
        ReadTime(net, fd, net.FindByFd(fd).value, received, now, queued, limits, id);
      } else {
        ReadIgnored(net, fd, received, now, queued, limits);
      }
    case _ => assert id in net.connections ==> Wired(net, id);
  }

  lemma RespondTime(net: Net, calls: seq<SendCall>, ctlOk: bool, limits: Limits, id: nat)
    requires net.pending != [] && id in net.HandleResponse(calls, ctlOk, limits).connections
    ensures id in net.connections
    ensures net.HandleResponse(calls, ctlOk, limits).connections[id].lastActive == net.connections[id].lastActive
  {
    hide Net.SendToClient;
    var x := net.pending[0].connectionId;
    if x in net.connections {
      SendKeepsTimes(AfterTake(net), x, net.pending[0].data, calls, ctlOk, limits);
    }
  }

  lemma SendKeepsTimes(net: Net, x: nat, data: string, calls: seq<SendCall>, ctlOk: bool, limits: Limits)
    requires x in net.connections
    ensures var sent := net.SendToClient(x, data, calls, ctlOk, limits).0;
            && sent.connections.Keys == net.connections.Keys
            && forall id :: id in net.connections ==> sent.connections[id].lastActive == net.connections[id].lastActive
  {
    hide Frame, Sending;
  }

  lemma FlushTime(net: Net, fd: int, calls: seq<SendCall>, ctlOk: bool, limits: Limits, id: nat)
    requires Indexed(net) && id in net.FlushWriteBuffer(fd, calls, ctlOk).connections
    ensures id in net.connections
    ensures net.FlushWriteBuffer(fd, calls, ctlOk).connections[id].lastActive == net.connections[id].lastActive
  {
    FlushCases(net, fd, calls, ctlOk);
  }

  lemma ReadTime(net: Net, fd: int, x: nat, calls: seq<RecvCall>, now: int, queued: bool, limits: Limits, id: nat)
    requires Invariant(net, limits) && net.FindByFd(fd) == Some(x) && !net.connections[x].closing
    requires id in net.HandleClientRead(fd, calls, now, queued, limits).connections
    ensures var after := net.HandleClientRead(fd, calls, now, queued, limits);
            && id in net.connections && id in net.history.submitted && id in after.history.submitted
            && after.connections[id].lastActive ==
               if after.history.submitted[id] != net.history.submitted[id] then now else net.connections[id].lastActive
  {
    hide Net.HandleClientRead, Decode, Queued, Flowing;
    ReadOutcome(net, fd, x, calls, now, queued, limits);
    IsLogged(net, limits, id);
    OthersSubmit(net, fd, x, calls, now, queued, limits, id);
    var d := Decode(net.connections[x].readBuffer + ReadAll(calls).1, MAX_PAYLOAD);
    if d.packets != [] {
      assert |net.history.submitted[x] + d.packets| > |net.history.submitted[x]|;
    }
  }

  lemma OthersSubmit(
    net: Net, fd: int, x: nat, calls: seq<RecvCall>, now: int, queued: bool, limits: Limits, id: nat)
    requires net.FindByFd(fd) == Some(x) && id in net.history.submitted
    ensures var after := net.HandleClientRead(fd, calls, now, queued, limits);
            id in after.history.submitted && (id != x ==> after.history.submitted[id] == net.history.submitted[id])
  {
    hide Receive, ReadAll;
  }
}
