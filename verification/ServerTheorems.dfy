/** The promises of the network layer, in every state of every run from the empty server. */
module ServerTheorems {
  import opened Wrappers
  import opened PacketCodec
  import opened PacketIo
  import opened ServerState
  import opened ServerInvariant

  /** Output refinement and routing. In every reachable state, for every connection id that was
      given out, the bytes the kernel took on the socket of that accept frame the first payloads, in
      order, of the responses queued for that id and of no others; for a live connection, with what
      is still buffered, they frame exactly all those the reactor has dealt with. */
  lemma OutputRefinement(net: Net, limits: Limits, id: nat)
    requires Reachable(net, limits) && 1 <= id < net.nextId
    ensures id in net.kernel.wire && net.history.taken <= |net.history.pushed|
    ensures var received := Decode(net.kernel.wire[id], MAX_PAYLOAD);
            !received.bad && received.packets <= DataFor(net.history.pushed[..net.history.taken], id)
    ensures id in net.connections ==>
              net.kernel.wire[id] + net.connections[id].writeBuffer ==
              EncodeAll(DataFor(net.history.pushed[..net.history.taken], id))
  {
    hide Queued, Indexed, Frame, EncodeAll;
    ReachableHolds(net, limits);
    assert Accounted(net, id);
    var handed := net.history.handed[id];
    PrefixDecodes(net.kernel.wire[id], handed);
    if id in net.connections {
      assert Flowing(net, id, [], limits);
      assert handed + [] == handed;
    }
  }

  /** Descriptors, connections and registrations in every reachable state: a live connection uses the
      descriptor opened by the accept that created it, no two share one, and no open descriptor
      belongs to nothing. */
  lemma DescriptorsAreOwned(net: Net, limits: Limits)
    requires Reachable(net, limits)
    ensures forall id :: id in net.connections ==>
              net.connections[id].fd in net.kernel.open && net.kernel.open[net.connections[id].fd] == id
    ensures forall fd :: fd in net.kernel.open ==>
              fd in net.byFd && net.byFd[fd] == net.kernel.open[fd] && net.byFd[fd] in net.connections
    ensures forall a, b :: a in net.connections && b in net.connections && a != b ==>
              net.connections[a].fd != net.connections[b].fd
  {
    ReachableHolds(net, limits);
    forall id | id in net.connections
      ensures net.connections[id].fd in net.kernel.open && net.kernel.open[net.connections[id].fd] == id
    {
      assert Wired(net, id);
    }
    forall fd | fd in net.kernel.open
      ensures fd in net.byFd && net.byFd[fd] == net.kernel.open[fd] && net.byFd[fd] in net.connections
    {
      assert Wired(net, net.byFd[fd]);
    }
  }

  /** Between steps a connection asks for EPOLLOUT exactly when it has unsent bytes, a closing
      connection has some, and neither buffer is above its limit. */
  lemma BuffersAreWatched(net: Net, limits: Limits, id: nat)
    requires Reachable(net, limits) && id in net.connections
    ensures var c := net.connections[id];
            && c.fd in net.kernel.armed && (net.kernel.armed[c.fd] <==> c.writeBuffer != "")
            && (c.closing ==> c.writeBuffer != "")
            && |c.writeBuffer| <= limits.maxWrite && |c.readBuffer| <= limits.maxRead
  {
    ReachableHolds(net, limits);
    assert Flowing(net, id, [], limits);
  }

  /** A closing connection is closed by the flush that empties its buffer. */
  lemma ClosingFinishes(net: Net, limits: Limits, id: nat, calls: seq<SendCall>, ctlOk: bool)
    requires Reachable(net, limits) && id in net.connections && net.connections[id].closing
    requires Sending(0, |net.connections[id].writeBuffer|, calls).status.SendOk?
    ensures var after := Apply(net, Writable(net.connections[id].fd, calls, ctlOk), limits);
            && id !in after.connections
            && id in after.kernel.wire && id in after.history.handed
            && after.kernel.wire[id] == EncodeAll(after.history.handed[id])
  {
    hide Decode, DataFor, EncodeAll, Frame;
    ReachableHolds(net, limits);
    assert Wired(net, id) && Flowing(net, id, [], limits);
    var buffer := net.connections[id].writeBuffer;
    assert buffer[..|buffer|] == buffer;
  }

  /** The connection whose turn it is to write, if any. */
  function Writer(net: Net, step: Step): Option<nat> {
    match step
    case Respond(_, _) => if net.pending == [] then None else Some(net.pending[0].connectionId)
    case Writable(fd, _, _) => net.FindByFd(fd)
    case _ => None
  }

  /** Nothing went out for `id`, and it was not brought to life. */
  ghost predicate Untouched(net: Net, after: Net, id: nat) {
    && id in net.kernel.wire && id in after.kernel.wire && after.kernel.wire[id] == net.kernel.wire[id]
    && id in net.history.handed && id in after.history.handed && after.history.handed[id] == net.history.handed[id]
    && net.nextId <= after.nextId
    && (id !in net.connections ==> id !in after.connections)
  }

  /** A socket's bytes change only when a response queued for its own connection is handled or its own
      buffer is flushed; and a connection id that is gone is never written to. */
  lemma OnlyOwnerWrites(net: Net, step: Step, limits: Limits, id: nat)
    requires Invariant(net, limits) && Enabled(net, step) && 1 <= id < net.nextId
    requires Writer(net, step) != Some(id) || id !in net.connections
    ensures Untouched(net, Apply(net, step, limits), id)
  {
    hide Queued, Flowing, Untouched, Net.HandleResponse, Net.FlushWriteBuffer, Net.HandleClientRead,
         Net.ProcessPacket, Net.Accept, Net.CloseConnection, Net.HandleClose;
    assert Accounted(net, id);
    match step
    case Respond(calls, ctlOk) =>
      var x := net.pending[0].connectionId;
      assert x in net.connections ==> Wired(net, x);
      RespondOthers(net, calls, ctlOk, limits, id);
    case Writable(fd, calls, ctlOk) => FlushOthers(net, fd, calls, ctlOk, id);
    case Readable(fd, received, now, queued) => ReadOthers(net, fd, received, now, queued, limits, id);
    case _ => QuietSteps(net, step, limits, id);
  }

  lemma QuietSteps(net: Net, step: Step, limits: Limits, id: nat)
    requires Enabled(net, step) && Accounted(net, id) && 1 <= id <= net.kernel.accepts
    requires net.nextId == net.kernel.accepts + 1
    requires !step.Respond? && !step.Writable? && !step.Readable?
    ensures Untouched(net, Apply(net, step, limits), id)
  {
    hide Decode, EncodeAll, DataFor;
  }

  /** A response to a connection that is gone is dropped: nothing but the list changes. */
  lemma DroppedWhenClosed(net: Net, calls: seq<SendCall>, ctlOk: bool, limits: Limits)
    requires net.pending != [] && net.pending[0].connectionId !in net.connections
    ensures net.HandleResponse(calls, ctlOk, limits) == AfterTake(net)
  {
  }

  lemma RespondOthers(net: Net, calls: seq<SendCall>, ctlOk: bool, limits: Limits, id: nat)
    requires net.pending != [] && Accounted(net, id)
    requires net.pending[0].connectionId != id || id !in net.connections
    requires net.pending[0].connectionId in net.connections ==> Wired(net, net.pending[0].connectionId)
    ensures Untouched(net, net.HandleResponse(calls, ctlOk, limits), id)
  {
    var x := net.pending[0].connectionId;
    if net.IsCurrent(x, net.pending[0].generation) {
      var taken := AfterTake(net);
      TakeLogs(net, id);
      SendTouches(taken, x, net.pending[0].data, calls, ctlOk, limits);
      TouchesOthers(taken, taken.SendToClient(x, net.pending[0].data, calls, ctlOk, limits).0, x, id);
    } else if x !in net.connections {
      DroppedWhenClosed(net, calls, ctlOk, limits);
    }
  }

  lemma TakeLogs(net: Net, id: nat)
    requires net.pending != [] && Accounted(net, id)
    ensures id in AfterTake(net).kernel.wire && id in AfterTake(net).history.handed
  {
  }

  lemma TouchesOthers(net: Net, after: Net, x: nat, id: nat)
    requires OnlyTouches(net, after, x) && id != x && id in net.kernel.wire && id in net.history.handed
    ensures Untouched(net, after, id)
    ensures Untouched(net, after.CloseConnection(x), id)
    ensures Untouched(net, after.FinishWith(x), id)
  {
  }

  lemma FlushOthers(net: Net, fd: int, calls: seq<SendCall>, ctlOk: bool, id: nat)
    requires Indexed(net) && Accounted(net, id)
    requires net.FindByFd(fd) != Some(id)
    ensures Untouched(net, net.FlushWriteBuffer(fd, calls, ctlOk), id)
  {
    FlushCases(net, fd, calls, ctlOk);
    var found := net.FindByFd(fd);
    if found.Some? {
      assert Wired(net, found.value);
      FlushTouches(net, found.value, calls, ctlOk);
      TouchesOthers(net, AfterFlush(net, found.value, calls, ctlOk), found.value, id);
    }
  }

  lemma ReadOthers(net: Net, fd: int, calls: seq<RecvCall>, now: int, queued: bool, limits: Limits, id: nat)
    requires Accounted(net, id)
    ensures Untouched(net, net.HandleClientRead(fd, calls, now, queued, limits), id)
  {
    ReadCases(net, fd, calls, now, queued, limits);
  }

  /** A closed id stays closed, whatever happens to its descriptor number afterwards: later in the
      run it gets no connection, no further payload and no further byte. */
  lemma {:induction false} ClosedForGood(states: seq<Net>, steps: seq<Step>, limits: Limits, i: nat, j: nat, id: nat)
    requires Run(states, steps, limits) && i <= j < |states|
    requires 1 <= id < states[i].nextId && id !in states[i].connections
    ensures Untouched(states[i], states[j], id)
    decreases j
  {
    AlwaysLogged(states, steps, limits, i, id);
    if i < j {
      ClosedForGood(states, steps, limits, i, j - 1, id);
      StillClosed(states, steps, limits, j - 1, id);
    }
  }

  lemma AlwaysLogged(states: seq<Net>, steps: seq<Step>, limits: Limits, k: nat, id: nat)
    requires Run(states, steps, limits) && k < |states| && 1 <= id < states[k].nextId
    ensures id in states[k].kernel.wire && id in states[k].history.handed
  {
    Always(states, steps, limits, k);
    assert Accounted(states[k], id);
  }

  lemma StillClosed(states: seq<Net>, steps: seq<Step>, limits: Limits, k: nat, id: nat)
    requires Run(states, steps, limits) && k < |steps|
    requires 1 <= id < states[k].nextId && id !in states[k].connections
    ensures Untouched(states[k], states[k + 1], id)
  {
    Always(states, steps, limits, k);
    assert Next(states[k], steps[k], states[k + 1], limits);
    OnlyOwnerWrites(states[k], steps[k], limits, id);
  }

  /** Why the kernel's side can make the reactor give a connection up while a payload is sent. */
  predicate SendFails(c: Connection, size: nat, calls: seq<SendCall>, ctlOk: bool, limits: Limits) {
    if c.writeBuffer != "" then |c.writeBuffer| + size > limits.maxWrite
    else
      var r := Sending(0, size, calls);
      r.status.SendIoError? || (r.status.SendWouldBlock? && (size - r.sent > limits.maxWrite || !ctlOk))
  }

  /** When the connection a response is for is closed by handling it: exactly when the payload is empty
      or above the limit, so that it cannot be framed; when sending fails, or leaves more unsent than the
      write limit; or when the response asked for it and everything is out. Otherwise the payload is
      handed over. */
  lemma ResponseCloses(net: Net, calls: seq<SendCall>, ctlOk: bool, limits: Limits)
    requires net.pending != [] && net.pending[0].connectionId in net.connections
    requires net.IsCurrent(net.pending[0].connectionId, net.pending[0].generation)
    ensures var response, after := net.pending[0], net.HandleResponse(calls, ctlOk, limits);
            var id, c, size := response.connectionId, net.connections[response.connectionId], HEADER_SIZE + |response.data|;
            id !in after.connections <==>
              || !Encodable(response.data)
              || SendFails(c, size, calls, ctlOk, limits)
              || (response.closeAfterSend && c.writeBuffer == "" && Sending(0, size, calls).status.SendOk?)
    ensures var response, after := net.pending[0], net.HandleResponse(calls, ctlOk, limits);
            !Encodable(response.data) ==> after == AfterTake(net).CloseConnection(response.connectionId)
  {
    hide BigEndian;
    var id := net.pending[0].connectionId;
    FrameSizes(net.pending[0].data);
    SendOutcome(AfterTake(net), id, net.pending[0].data, calls, ctlOk, limits);
  }

  lemma FrameSizes(data: string)
    ensures |Frame(data)| == HEADER_SIZE + |data|
  {
  }

  /** Whether a send succeeds, and what it leaves buffered. */
  lemma SendOutcome(net: Net, id: nat, data: string, calls: seq<SendCall>, ctlOk: bool, limits: Limits)
    requires id in net.connections
    ensures var (sent, ok) := net.SendToClient(id, data, calls, ctlOk, limits);
            var c, size := net.connections[id], HEADER_SIZE + |data|;
            && (ok <==> Encodable(data) && !SendFails(c, size, calls, ctlOk, limits))
            && id in sent.connections
            && (ok ==> (sent.connections[id].writeBuffer == "" <==>
                          c.writeBuffer == "" && Sending(0, size, calls).status.SendOk?))
  {
    FrameSizes(data);
  }

  // ------------------------------------------------------------ input side

  /** However the kernel cut the input into reads, what was submitted to the pool for a connection is
      the first packets of the stream it sent; for a live connection, all that are complete. */
  lemma InputRefinement(net: Net, limits: Limits, id: nat)
    requires Reachable(net, limits) && 1 <= id < net.nextId
    ensures id in net.history.arrived && id in net.history.submitted
    ensures net.history.submitted[id] <= Decode(net.history.arrived[id], MAX_PAYLOAD).packets
    ensures id in net.connections ==>
              Decode(net.history.arrived[id], MAX_PAYLOAD) ==
              Decoded(net.history.submitted[id], net.connections[id].readBuffer, false)
  {
    ReachableHolds(net, limits);
    assert Accounted(net, id);
    if id in net.connections {
      assert Flowing(net, id, [], limits);
    }
  }

  /** Some read takes the overflow branch, starting from what an earlier read can have left: an
      incomplete frame within the limit. */
  ghost predicate CanOverflow(maxRead: nat) {
    exists buffer, calls :: Kept(buffer, maxRead) && Overflows(buffer, calls, maxRead)
  }

  ghost predicate Kept(buffer: string, maxRead: nat) {
    |buffer| <= maxRead && Decode(buffer, MAX_PAYLOAD) == Decoded([], buffer, false)
  }

  ghost predicate Overflows(buffer: string, calls: seq<RecvCall>, maxRead: nat) {
    var result := Receive(calls, buffer, MAX_PAYLOAD);
    (result.status.RecvOk? || result.status.RecvWouldBlock?) && |result.buffer| > maxRead
  }

  /** What the connections of a server hold between reads is of that kind. */
  lemma ResiduesAreKept(net: Net, limits: Limits, id: nat)
    requires Reachable(net, limits) && id in net.connections
    ensures Kept(net.connections[id].readBuffer, limits.maxRead)
  {
    ReachableHolds(net, limits);
    assert Flowing(net, id, [], limits);
    DecodeTwice(net.history.arrived[id], MAX_PAYLOAD);
  }

  /** The read-buffer limit can be exceeded exactly when it is below the longest incomplete frame. */
  lemma OverflowReachable(maxRead: nat)
    ensures CanOverflow(maxRead) <==> maxRead < MAX_PAYLOAD + HEADER_SIZE - 1
  {
    if maxRead < MAX_PAYLOAD + HEADER_SIZE - 1 {
      var partial := BigEndian(MAX_PAYLOAD) + seq(MAX_PAYLOAD - 1, i => 'x');
      HeaderOfBigEndian(MAX_PAYLOAD, seq(MAX_PAYLOAD - 1, i => 'x'));
      OneRead(partial);
      assert Decode(partial, MAX_PAYLOAD) == Decoded([], partial, false);
      assert Kept("", maxRead) && Overflows("", [Received(partial)], maxRead);
    }
    if CanOverflow(maxRead) {
      var buffer, calls :| Kept(buffer, maxRead) && Overflows(buffer, calls, maxRead);
      DecodeBounds(buffer + ReadAll(calls).1, MAX_PAYLOAD);
    }
  }

  lemma OneRead(chunk: string)
    requires chunk != ""
    ensures ReadAll([Received(chunk)]) == (Drained, chunk) && "" + chunk == chunk
  {
    assert [Received(chunk)][1..] == [] && chunk + "" == chunk;
  }

  // ------------------------------------------------------------ hand-off

  /** Every response ever queued is, in order, either dealt with, on the reactor's list, or still in
      the shared queue; so each is taken by exactly one drain, and the queue respects its limit. */
  lemma HandoffIsExact(net: Net, limits: Limits)
    requires Reachable(net, limits)
    ensures net.history.taken <= |net.history.pushed|
    ensures net.history.pushed == net.history.pushed[..net.history.taken] + net.pending + net.responses
    ensures |net.responses| <= limits.maxResponses
  {
    ReachableHolds(net, limits);
  }

  /** One packet's responses enter the queue together and in order, or none of them does and the
      connection is asked to close. */
  lemma AllOrNothing(net: Net, b: nat, outbound: seq<Outbound>, limits: Limits)
    requires Invariant(net, limits) && Enabled(net, Processed(b, outbound))
    ensures var after := Apply(net, Processed(b, outbound), limits);
            var id := net.work[b].connectionId;
            if |net.responses| + |outbound| <= limits.maxResponses then
              && |after.responses| == |net.responses| + |outbound| && net.responses <= after.responses
              && after.closes == net.closes
              && forall i :: 0 <= i < |outbound| ==>
                   && after.responses[|net.responses| + i].connectionId == outbound[i].connectionId
                   && after.responses[|net.responses| + i].data == outbound[i].data
                   && after.responses[|net.responses| + i].closeAfterSend == outbound[i].closeAfterSend
            else
              && after.responses == net.responses && after.history == net.history
              && after.closes == net.closes + [CloseRequest(id, id)]
  {
    assert Issued(net, net.work[b].connectionId, net.work[b].generation);
  }
}
