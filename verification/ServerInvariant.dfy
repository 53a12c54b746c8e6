/** What every step of the server keeps, and what that means for whole runs. */
module ServerInvariant {
  import opened Wrappers
  import opened PacketCodec
  import opened PacketIo
  import opened ServerState

  /** The payloads among `responses` that are addressed to connection `id`, in order. */
  function DataFor(responses: seq<Response>, id: nat): seq<string> {
    if responses == [] then []
    else
      var last := responses[|responses| - 1];
      DataFor(responses[..|responses| - 1], id) + if last.connectionId == id then [last.data] else []
  }

  /** The indexes and the kernel agree about connection `id`. */
  ghost predicate Wired(net: Net, id: nat)
    requires id in net.connections
  {
    var c := net.connections[id];
    && 1 <= id < net.nextId
    && c.generation == id
    && c.fd in net.byFd && net.byFd[c.fd] == id
    && c.fd in net.kernel.open && net.kernel.open[c.fd] == id
    && c.fd in net.kernel.armed
  }

  /** The buffers of connection `id` account for every byte, in both directions; `lag` is what the
      reactor has taken from the queue for it and not handed over yet. */
  ghost predicate Flowing(net: Net, id: nat, lag: seq<string>, limits: Limits)
    requires id in net.connections
  {
    var c := net.connections[id];
    var h := net.history;
    && c.fd in net.kernel.armed && (net.kernel.armed[c.fd] <==> c.writeBuffer != "")
    && (c.closing ==> c.writeBuffer != "")
    && |c.writeBuffer| <= limits.maxWrite && |c.readBuffer| <= limits.maxRead
    && id in net.kernel.wire && id in h.handed && id in h.arrived && id in h.submitted
    && h.taken <= |h.pushed|
    && net.kernel.wire[id] + c.writeBuffer == EncodeAll(h.handed[id])
    && h.handed[id] + lag == DataFor(h.pushed[..h.taken], id)
    && Decode(h.arrived[id], MAX_PAYLOAD) == Decoded(h.submitted[id], c.readBuffer, false)
  }

  /** What holds of every connection id ever given out, also after it was closed. */
  ghost predicate Accounted(net: Net, id: nat) {
    var h := net.history;
    && id in net.kernel.wire && id in h.handed && id in h.arrived && id in h.submitted
    && h.taken <= |h.pushed|
    && (forall p :: p in h.handed[id] ==> Encodable(p))
    && net.kernel.wire[id] <= EncodeAll(h.handed[id])
    && h.handed[id] <= DataFor(h.pushed[..h.taken], id)
    && h.submitted[id] <= Decode(h.arrived[id], MAX_PAYLOAD).packets
  }

  /** Descriptors, ids and connections name each other one to one, and no descriptor leaks. */
  ghost predicate Indexed(net: Net) {
    && net.nextId == net.nextGeneration == net.kernel.accepts + 1
    && (forall id :: id in net.connections ==> Wired(net, id))
    && (forall fd :: fd in net.byFd ==> net.byFd[fd] in net.connections && net.connections[net.byFd[fd]].fd == fd)
    && net.kernel.open.Keys == net.byFd.Keys
    && net.kernel.armed.Keys == net.byFd.Keys
  }

  predicate Issued(net: Net, id: nat, generation: nat) {
    1 <= id < net.nextId && generation == id
  }

  /** Everything queued names a connection id that was given out, and its generation is that id. */
  ghost predicate Queued(net: Net, limits: Limits) {
    var h := net.history;
    && h.taken <= |h.pushed|
    && h.pushed[h.taken..] == net.pending + net.responses
    && |net.responses| <= limits.maxResponses
    && (forall i :: 0 <= i < |h.pushed| ==>
          && 1 <= h.pushed[i].connectionId < net.nextId
          && (h.pushed[i].generation == 0 || h.pushed[i].generation == h.pushed[i].connectionId))
    && (forall i :: 0 <= i < |net.closes| ==> Issued(net, net.closes[i].connectionId, net.closes[i].generation))
    && (forall i :: 0 <= i < |net.pendingCloses| ==>
          Issued(net, net.pendingCloses[i].connectionId, net.pendingCloses[i].generation))
    && (forall i :: 0 <= i < |net.work| ==> Issued(net, net.work[i].connectionId, net.work[i].generation))
  }

  /** The invariant, except that the buffers of the connections in `broken` are out of order. */
  ghost predicate InvariantBut(net: Net, limits: Limits, broken: set<nat>) {
    && Indexed(net)
    && Queued(net, limits)
    && (forall id :: id in net.connections && id !in broken ==> Flowing(net, id, [], limits))
    && (forall id :: 1 <= id < net.nextId ==> Accounted(net, id))
  }

  ghost predicate Invariant(net: Net, limits: Limits) {
    InvariantBut(net, limits, {})
  }

  // ---------------------------------------------------------------- steps

  lemma {:induction false} NoDataFor(responses: seq<Response>, id: nat)
    requires forall i :: 0 <= i < |responses| ==> responses[i].connectionId != id
    ensures DataFor(responses, id) == []
  {
    if responses != [] {
      NoDataFor(responses[..|responses| - 1], id);
    }
  }

  lemma InitialHolds(net: Net, limits: Limits)
    requires Initial(net)
    ensures Invariant(net, limits)
  {
    InitialQueues(net, limits);
    assert forall id :: id !in net.connections;
  }

  lemma InitialQueues(net: Net, limits: Limits)
    requires Initial(net)
    ensures Queued(net, limits)
  {
    assert net.history.pushed[net.history.taken..] == net.pending + net.responses;
  }

  lemma AcceptKeeps(net: Net, fd: int, registered: bool, now: int, limits: Limits)
    requires Invariant(net, limits) && fd !in net.kernel.open
    ensures Invariant(net.Accept(fd, registered, now), limits)
  {
    var after := net.Accept(fd, registered, now);
    AcceptIndexes(net, fd, registered, now);
    AcceptQueues(net, fd, registered, now, limits);
    FreshFlows(net, after, limits);
    forall id | id in after.connections ensures Flowing(after, id, [], limits) {
      if id != net.nextId { assert Wired(net, id); AcceptFlows(net, fd, registered, now, id, limits); }
    }
    forall id | 1 <= id < after.nextId ensures Accounted(after, id) {
      if id != net.nextId { AcceptAccounts(net, fd, registered, now, id); }
    }
  }

  lemma AcceptAccounts(net: Net, fd: int, registered: bool, now: int, id: nat)
    requires id <= net.kernel.accepts && id != net.nextId && Accounted(net, id)
    ensures Accounted(net.Accept(fd, registered, now), id)
  {
  }

  lemma AcceptQueues(net: Net, fd: int, registered: bool, now: int, limits: Limits)
    requires Queued(net, limits)
    ensures Queued(net.Accept(fd, registered, now), limits)
  {
  }

  lemma AcceptFlows(net: Net, fd: int, registered: bool, now: int, id: nat, limits: Limits)
    requires id in net.connections && id < net.nextId && id <= net.kernel.accepts && net.connections[id].fd != fd
    requires Flowing(net, id, [], limits)
    ensures id in net.Accept(fd, registered, now).connections
    ensures Flowing(net.Accept(fd, registered, now), id, [], limits)
  {
  }

  lemma AcceptIndexes(net: Net, fd: int, registered: bool, now: int)
    requires Indexed(net) && fd !in net.kernel.open
    ensures Indexed(net.Accept(fd, registered, now))
  {
    var after := net.Accept(fd, registered, now);
    forall id | id in after.connections ensures Wired(after, id) {
      assert id != net.nextId ==> Wired(net, id);
    }
    assert after.kernel.open.Keys == after.byFd.Keys;
    assert after.kernel.armed.Keys == after.byFd.Keys;
  }

  lemma FreshFlows(net: Net, after: Net, limits: Limits)
    requires Indexed(net) && Queued(net, limits)
    requires after.history == net.history.Open(net.nextId)
    requires net.nextId in after.kernel.wire && after.kernel.wire[net.nextId] == ""
    ensures Accounted(after, net.nextId)
    ensures net.nextId in after.connections ==>
              var c := after.connections[net.nextId];
              c.readBuffer == "" && c.writeBuffer == "" && !c.closing &&
              c.fd in after.kernel.armed && !after.kernel.armed[c.fd] ==>
                Flowing(after, net.nextId, [], limits)
  {
    NoDataFor(net.history.pushed[..net.history.taken], net.nextId);
  }

  /** Closing repairs whatever was wrong with the connection, and leaves the others alone. */
  lemma CloseKeeps(net: Net, id: nat, limits: Limits, broken: set<nat>)
    requires InvariantBut(net, limits, broken)
    ensures InvariantBut(net.CloseConnection(id), limits, broken - {id})
  {
    var after := net.CloseConnection(id);
    forall other | other in after.connections ensures Wired(after, other) {
      assert Wired(net, other);
      if id in net.connections { assert Wired(net, id); }
    }
    forall other | other in after.connections && other !in broken - {id} ensures Flowing(after, other, [], limits) {
      assert Wired(net, other) && Flowing(net, other, [], limits);
      if id in net.connections { assert Wired(net, id); }
    }
    forall other | 1 <= other < after.nextId ensures Accounted(after, other) {
      assert Accounted(net, other);
    }
    if id in net.connections { assert Wired(net, id); }
  }

  /** `after` differs from `net` only in what belongs to connection `id`, and in the queues. */
  ghost predicate OnlyTouches(net: Net, after: Net, id: nat) {
    && id in net.connections
    && after.connections.Keys == net.connections.Keys
    && (forall other :: other in net.connections && other != id ==> after.connections[other] == net.connections[other])
    && after.connections[id].fd == net.connections[id].fd
    && after.connections[id].generation == net.connections[id].generation
    && after.byFd == net.byFd && after.nextId == net.nextId && after.nextGeneration == net.nextGeneration
    && after.kernel.open == net.kernel.open && after.kernel.accepts == net.kernel.accepts
    && after.kernel.armed.Keys == net.kernel.armed.Keys
    && (forall fd :: fd in net.kernel.armed && fd != net.connections[id].fd ==>
          after.kernel.armed[fd] == net.kernel.armed[fd])
    && after.kernel.wire.Keys == net.kernel.wire.Keys
    && (forall other :: other in net.kernel.wire && other != id ==> after.kernel.wire[other] == net.kernel.wire[other])
    && OnlyRecords(net.history, after.history, id)
  }

  ghost predicate OnlyRecords(h: History, h': History, id: nat) {
    && h'.pushed == h.pushed && h'.taken == h.taken
    && h'.handed.Keys == h.handed.Keys && h'.arrived.Keys == h.arrived.Keys && h'.submitted.Keys == h.submitted.Keys
    && (forall other :: other in h.handed && other != id ==> h'.handed[other] == h.handed[other])
    && (forall other :: other in h.arrived && other != id ==> h'.arrived[other] == h.arrived[other])
    && (forall other :: other in h.submitted && other != id ==> h'.submitted[other] == h.submitted[other])
  }

  ghost predicate SameQueues(net: Net, after: Net) {
    && after.nextId == net.nextId && after.responses == net.responses && after.closes == net.closes
    && after.pending == net.pending && after.pendingCloses == net.pendingCloses && after.work == net.work
    && after.history.pushed == net.history.pushed && after.history.taken == net.history.taken
    && after.history.submitted == net.history.submitted
  }

  lemma SameQueuesKeep(net: Net, after: Net, limits: Limits)
    requires Queued(net, limits) && SameQueues(net, after)
    ensures Queued(after, limits)
  {
  }

  lemma TouchKeepsIndexes(net: Net, after: Net, id: nat)
    requires Indexed(net) && OnlyTouches(net, after, id)
    ensures Indexed(after)
  {
    forall other | other in after.connections ensures Wired(after, other) {
      assert Wired(net, other);
    }
  }

  lemma TouchKeepsOther(net: Net, after: Net, id: nat, other: nat, limits: Limits)
    requires OnlyTouches(net, after, id) && other in net.connections && other != id
    requires net.connections[other].fd != net.connections[id].fd
    requires Flowing(net, other, [], limits)
    ensures Flowing(after, other, [], limits)
  {
  }

  lemma TouchKeeps(net: Net, after: Net, id: nat, limits: Limits)
    requires InvariantBut(net, limits, {id}) && OnlyTouches(net, after, id)
    requires Queued(after, limits) && Accounted(after, id)
    ensures InvariantBut(after, limits, {id})
  {
    TouchKeepsIndexes(net, after, id);
    assert Wired(net, id);
    forall other | other in after.connections && other !in {id} ensures Flowing(after, other, [], limits) {
      assert Wired(net, other);
      TouchKeepsOther(net, after, id, other, limits);
    }
    forall other | 1 <= other < after.nextId ensures Accounted(after, other) {
      assert Accounted(net, other);
    }
  }

  lemma Whole(net: Net, id: nat, limits: Limits)
    requires InvariantBut(net, limits, {id})
    requires id in net.connections ==> Flowing(net, id, [], limits)
    ensures Invariant(net, limits)
  {
  }

  lemma Weaken(net: Net, limits: Limits, broken: set<nat>)
    requires Invariant(net, limits)
    ensures InvariantBut(net, limits, broken)
  {
  }

  // ------------------------------------------------------------ reading

  /** `net` with what one read delivered to connection `id`. */
  function AfterRead(net: Net, id: nat, calls: seq<RecvCall>): Net
    requires id in net.connections
  {
    var c := net.connections[id];
    net.(connections := net.connections[id := c.(readBuffer := Receive(calls, c.readBuffer, MAX_PAYLOAD).buffer)],
         history := net.history.Arrive(id, ReadAll(calls).1))
  }

  lemma ReadArrives(net: Net, id: nat, calls: seq<RecvCall>, limits: Limits)
    requires id in net.connections && Flowing(net, id, [], limits)
    ensures var h := net.history; var h' := AfterRead(net, id, calls).history;
            var result := Receive(calls, net.connections[id].readBuffer, MAX_PAYLOAD);
            && id in h'.arrived && id in h'.submitted
            && h.submitted[id] <= Decode(h'.arrived[id], MAX_PAYLOAD).packets
            && (result.status in {RecvOk, RecvWouldBlock} ==>
                  Decode(h'.arrived[id], MAX_PAYLOAD) == Decoded(h.submitted[id] + result.packets, result.buffer, false))
  {
    DecodeAppend(net.history.arrived[id], ReadAll(calls).1, MAX_PAYLOAD);
  }

  lemma ReadTouches(net: Net, id: nat, calls: seq<RecvCall>, limits: Limits)
    requires Invariant(net, limits) && id in net.connections
    ensures InvariantBut(AfterRead(net, id, calls), limits, {id})
  {
    assert Wired(net, id) && Flowing(net, id, [], limits) && Accounted(net, id);
    ReadArrives(net, id, calls, limits);
    ReadAccounts(net, id, calls);
    ReadChanges(net, id, calls);
    SameQueuesKeep(net, AfterRead(net, id, calls), limits);
    Weaken(net, limits, {id});
    TouchKeeps(net, AfterRead(net, id, calls), id, limits);
  }

  lemma ReadChanges(net: Net, id: nat, calls: seq<RecvCall>)
    requires id in net.connections
    ensures OnlyTouches(net, AfterRead(net, id, calls), id) && SameQueues(net, AfterRead(net, id, calls))
  {
  }

  lemma ReadAccounts(net: Net, id: nat, calls: seq<RecvCall>)
    requires id in net.connections && Accounted(net, id)
    requires net.history.submitted[id] <= Decode(net.history.arrived[id] + ReadAll(calls).1, MAX_PAYLOAD).packets
    ensures Accounted(AfterRead(net, id, calls), id)
  {
  }

  /** The packets of a read go to the pool as one batch. */
  function AfterSubmit(net: Net, id: nat, calls: seq<RecvCall>, now: int): Net
    requires id in net.connections
  {
    var c := net.connections[id];
    var result := Receive(calls, c.readBuffer, MAX_PAYLOAD);
    var net' := AfterRead(net, id, calls);
    net'.(connections := net.connections[id := c.(readBuffer := result.buffer, lastActive := now)],
          work := net.work + [Batch(id, c.generation, [], result.packets)],
          history := net'.history.Submit(id, result.packets))
  }

  lemma SubmitKeeps(net: Net, id: nat, calls: seq<RecvCall>, now: int, limits: Limits)
    requires Invariant(net, limits) && id in net.connections
    requires Receive(calls, net.connections[id].readBuffer, MAX_PAYLOAD).status.RecvOk?
    requires |Receive(calls, net.connections[id].readBuffer, MAX_PAYLOAD).buffer| <= limits.maxRead
    ensures Invariant(AfterSubmit(net, id, calls, now), limits)
  {
    var after := AfterSubmit(net, id, calls, now);
    assert Wired(net, id) && Flowing(net, id, [], limits) && Accounted(net, id);
    SubmitFlows(net, id, calls, now, limits);
    SubmitQueues(net, id, calls, now, limits);
    Weaken(net, limits, {id});
    TouchKeeps(net, after, id, limits);
    Whole(after, id, limits);
  }

  lemma SubmitFlows(net: Net, id: nat, calls: seq<RecvCall>, now: int, limits: Limits)
    requires id in net.connections && Flowing(net, id, [], limits) && Accounted(net, id)
    requires Receive(calls, net.connections[id].readBuffer, MAX_PAYLOAD).status.RecvOk?
    requires |Receive(calls, net.connections[id].readBuffer, MAX_PAYLOAD).buffer| <= limits.maxRead
    ensures Flowing(AfterSubmit(net, id, calls, now), id, [], limits)
    ensures Accounted(AfterSubmit(net, id, calls, now), id)
    ensures OnlyTouches(net, AfterSubmit(net, id, calls, now), id)
  {
    ReadArrives(net, id, calls, limits);
  }

  lemma SubmitQueues(net: Net, id: nat, calls: seq<RecvCall>, now: int, limits: Limits)
    requires id in net.connections && Wired(net, id) && Queued(net, limits)
    ensures Queued(AfterSubmit(net, id, calls, now), limits)
  {
  }

  /** The branches of `handle_client_read`. */
  lemma ReadCases(net: Net, fd: int, calls: seq<RecvCall>, now: int, queued: bool, limits: Limits)
    ensures
      var found := net.FindByFd(fd);
      var after := net.HandleClientRead(fd, calls, now, queued, limits);
      if found.None? || net.connections[found.value].closing then after == net
      else
        var result := Receive(calls, net.connections[found.value].readBuffer, MAX_PAYLOAD);
        var read := AfterRead(net, found.value, calls);
        || after == read.CloseConnection(found.value)
        || (result.status.RecvWouldBlock? && |result.buffer| <= limits.maxRead && after == read)
        || (result.status.RecvOk? && |result.buffer| <= limits.maxRead &&
            after == AfterSubmit(net, found.value, calls, now))
  {
    var found := net.FindByFd(fd);
    if found.Some? && !net.connections[found.value].closing {
      var id := found.value;
      var c := net.connections[id];
      var result := Receive(calls, c.readBuffer, MAX_PAYLOAD);
      var read := AfterRead(net, id, calls);
      var active := read.(connections := net.connections[id := c.(readBuffer := result.buffer, lastActive := now)]);
      assert active.CloseConnection(id) == read.CloseConnection(id);
    }
  }

  lemma ReadKeeps(net: Net, fd: int, calls: seq<RecvCall>, now: int, queued: bool, limits: Limits)
    requires Invariant(net, limits)
    ensures Invariant(net.HandleClientRead(fd, calls, now, queued, limits), limits)
  {
    ReadCases(net, fd, calls, now, queued, limits);
    var found := net.FindByFd(fd);
    if found.Some? && !net.connections[found.value].closing {
      var id := found.value;
      var result := Receive(calls, net.connections[id].readBuffer, MAX_PAYLOAD);
      var status := result.status;
      ReadTouches(net, id, calls, limits);
      CloseKeeps(AfterRead(net, id, calls), id, limits, {id});
      assert {id} - {id} == {};
      if status.RecvWouldBlock? && |result.buffer| <= limits.maxRead {
        ReadStillFlows(net, id, calls, limits);
        Whole(AfterRead(net, id, calls), id, limits);
      } else if status.RecvOk? && |result.buffer| <= limits.maxRead {
        SubmitKeeps(net, id, calls, now, limits);
      }
    }
  }

  lemma ReadStillFlows(net: Net, id: nat, calls: seq<RecvCall>, limits: Limits)
    requires id in net.connections && Flowing(net, id, [], limits)
    requires Receive(calls, net.connections[id].readBuffer, MAX_PAYLOAD).status.RecvWouldBlock?
    requires |Receive(calls, net.connections[id].readBuffer, MAX_PAYLOAD).buffer| <= limits.maxRead
    ensures Flowing(AfterRead(net, id, calls), id, [], limits)
  {
    ReadArrives(net, id, calls, limits);
    assert net.history.submitted[id] + [] == net.history.submitted[id];
  }

  // ------------------------------------------------------------ responding

  /** `net` with the first pending response taken off the list. */
  function AfterTake(net: Net): Net
    requires net.pending != []
  {
    net.(pending := net.pending[1..], history := net.history.(taken := net.history.taken + 1))
  }

  lemma TakeQueues(net: Net, limits: Limits)
    requires Queued(net, limits) && net.pending != []
    ensures Queued(AfterTake(net), limits)
    ensures net.history.taken < |net.history.pushed| && net.history.pushed[net.history.taken] == net.pending[0]
  {
    var h := net.history;
    assert h.pushed[h.taken..][0] == net.pending[0];
    assert h.pushed[h.taken + 1..] == h.pushed[h.taken..][1..];
    assert (net.pending + net.responses)[1..] == net.pending[1..] + net.responses;
  }

  lemma DataForNext(pushed: seq<Response>, k: nat, id: nat)
    requires k < |pushed|
    ensures DataFor(pushed[..k + 1], id) ==
            DataFor(pushed[..k], id) + if pushed[k].connectionId == id then [pushed[k].data] else []
  {
    assert pushed[..k + 1][..k] == pushed[..k];
  }

  /** Taking a response off the list leaves only its own connection one payload behind. */
  lemma TakeLags(net: Net, id: nat, limits: Limits)
    requires net.pending != [] && id in net.connections && Flowing(net, id, [], limits)
    requires net.history.taken < |net.history.pushed| && net.history.pushed[net.history.taken] == net.pending[0]
    ensures Flowing(AfterTake(net), id, if net.pending[0].connectionId == id then [net.pending[0].data] else [], limits)
  {
    DataForNext(net.history.pushed, net.history.taken, id);
  }

  lemma TakeAccounts(net: Net, id: nat)
    requires net.pending != [] && Accounted(net, id)
    requires net.history.taken < |net.history.pushed|
    ensures Accounted(AfterTake(net), id)
  {
    DataForNext(net.history.pushed, net.history.taken, id);
  }

  lemma TakeKeeps(net: Net, limits: Limits)
    requires Invariant(net, limits) && net.pending != []
    ensures InvariantBut(AfterTake(net), limits, {net.pending[0].connectionId})
    ensures net.pending[0].connectionId in net.connections ==>
              Flowing(AfterTake(net), net.pending[0].connectionId, [net.pending[0].data], limits)
  {
    var after := AfterTake(net);
    TakeQueues(net, limits);
    assert Indexed(after) by { forall id | id in after.connections ensures Wired(after, id) { assert Wired(net, id); } }
    forall id | id in after.connections
      ensures Flowing(after, id, if net.pending[0].connectionId == id then [net.pending[0].data] else [], limits)
    {
      TakeLags(net, id, limits);
    }
    forall id | 1 <= id < after.nextId ensures Accounted(after, id) {
      TakeAccounts(net, id);
    }
  }

  /** The connection's socket took `bytes`; its record, registration and log may change too. */
  lemma TakeTouches(net: Net, id: nat, bytes: string, c: Connection, armed: bool, history: History)
    requires id in net.connections && Wired(net, id)
    requires c.fd == net.connections[id].fd && c.generation == net.connections[id].generation
    requires OnlyRecords(net.history, history, id)
    ensures OnlyTouches(net, net.(connections := net.connections[id := c], history := history,
                                  kernel := net.kernel.Take(c.fd, bytes)), id)
    ensures OnlyTouches(net, net.(connections := net.connections[id := c], history := history,
                                  kernel := net.kernel.Take(c.fd, bytes).Watch(c.fd, armed, true)), id)
  {
    assert net.kernel.Take(c.fd, bytes).wire.Keys == net.kernel.wire.Keys;
    assert net.kernel.Take(c.fd, bytes).Watch(c.fd, armed, true).armed.Keys == net.kernel.armed.Keys;
  }

  lemma SendTouches(net: Net, id: nat, data: string, calls: seq<SendCall>, ctlOk: bool, limits: Limits)
    requires id in net.connections && Wired(net, id)
    ensures OnlyTouches(net, net.SendToClient(id, data, calls, ctlOk, limits).0, id)
  {
    var sent := net.SendToClient(id, data, calls, ctlOk, limits).0;
    var c, history := net.connections[id], net.history.Hand(id, data);
    if Encodable(data) {
      HandRecords(net.history, id, data);
      var packet := Frame(data);
      if c.writeBuffer != "" {
        TakeNothing(net.kernel, c.fd);
        TakeTouches(net, id, "", c.(writeBuffer := c.writeBuffer + packet), true, history);
      } else {
        var r := Sending(0, |packet|, calls);
        TakeTouches(net, id, packet[..r.sent],
                    if r.status.SendWouldBlock? then c.(writeBuffer := packet[r.sent..]) else c, true, history);
        assert net.connections[id := c] == net.connections;
      }
    }
  }

  lemma HandRecords(h: History, id: nat, data: string)
    ensures OnlyRecords(h, h.Hand(id, data), id)
  {
  }

  lemma TakeNothing(kernel: Kernel, fd: int)
    ensures kernel.Take(fd, "") == kernel
  {
    if fd in kernel.open && kernel.open[fd] in kernel.wire {
      assert kernel.wire[kernel.open[fd]] + "" == kernel.wire[kernel.open[fd]];
    }
  }

  /** The bytes the kernel has once a payload went to a connection with nothing buffered. */
  lemma SendTakes(net: Net, id: nat, data: string, calls: seq<SendCall>, limits: Limits)
    requires id in net.connections && Wired(net, id) && Flowing(net, id, [data], limits)
    requires net.connections[id].writeBuffer == ""
    ensures var h, packet := net.history, Frame(data);
            var r := Sending(0, |packet|, calls);
            var wire := net.kernel.wire[id] + packet[..r.sent];
            && net.kernel.Take(net.connections[id].fd, packet[..r.sent]).wire == net.kernel.wire[id := wire]
            && wire + packet[r.sent..] == EncodeAll(h.handed[id] + [data])
            && (r.status.SendOk? ==> wire + "" == EncodeAll(h.handed[id] + [data]))
  {
    var packet := Frame(data);
    var r := Sending(0, |packet|, calls);
    HandOver(net.history.handed[id], data);
    assert net.kernel.wire[id] + "" == net.kernel.wire[id];
    assert packet == packet[..r.sent] + packet[r.sent..];
    if r.status.SendOk? {
      assert packet[r.sent..] == "";
    }
  }

  lemma SendAccounts(net: Net, id: nat, data: string, calls: seq<SendCall>, ctlOk: bool, limits: Limits)
    requires id in net.connections && Wired(net, id) && Accounted(net, id) && Flowing(net, id, [data], limits)
    ensures Accounted(net.SendToClient(id, data, calls, ctlOk, limits).0, id)
  {
    if Encodable(data) {
      SendLogs(net, id, data, calls, ctlOk, limits);
      HandedAccounts(net, net.SendToClient(id, data, calls, ctlOk, limits).0, id, data, limits);
    }
  }

  lemma SendLogs(net: Net, id: nat, data: string, calls: seq<SendCall>, ctlOk: bool, limits: Limits)
    requires id in net.connections && Wired(net, id) && Flowing(net, id, [data], limits) && Encodable(data)
    ensures var sent := net.SendToClient(id, data, calls, ctlOk, limits).0;
            && sent.history == net.history.Hand(id, data)
            && id in sent.kernel.wire
            && sent.kernel.wire[id] <= EncodeAll(net.history.handed[id] + [data])
  {
    hide Decode, DataFor, Sending;
    if net.connections[id].writeBuffer == "" {
      SendTakes(net, id, data, calls, limits);
    } else {
      HandOver(net.history.handed[id], data);
    }
  }

  lemma HandedAccounts(net: Net, after: Net, id: nat, data: string, limits: Limits)
    requires id in net.connections && Accounted(net, id) && Flowing(net, id, [data], limits) && Encodable(data)
    requires after.history == net.history.Hand(id, data)
    requires id in after.kernel.wire && after.kernel.wire[id] <= EncodeAll(net.history.handed[id] + [data])
    ensures Accounted(after, id)
  {
  }

  lemma HandOver(handed: seq<string>, data: string)
    ensures EncodeAll(handed + [data]) == EncodeAll(handed) + Frame(data)
  {
    EncodeAllAppend(handed, [data]);
    EncodeOne(data);
  }

  lemma SendFlows(net: Net, id: nat, data: string, calls: seq<SendCall>, ctlOk: bool, limits: Limits)
    requires id in net.connections && Wired(net, id) && Flowing(net, id, [data], limits)
    ensures var (sent, ok) := net.SendToClient(id, data, calls, ctlOk, limits);
            ok ==> id in sent.connections && Flowing(sent, id, [], limits)
  {
    if Encodable(data) {
      var h := net.history;
      HandOver(h.handed[id], data);
      var buffer := net.connections[id].writeBuffer;
      if buffer == "" {
        SendTakes(net, id, data, calls, limits);
      } else {
        assert net.kernel.wire[id] + (buffer + Frame(data)) == (net.kernel.wire[id] + buffer) + Frame(data);
      }
      assert h.handed[id] + [data] + [] == h.handed[id] + [data];
    }
  }

  lemma SendKeeps(net: Net, id: nat, data: string, calls: seq<SendCall>, ctlOk: bool, limits: Limits)
    requires InvariantBut(net, limits, {id}) && id in net.connections && Flowing(net, id, [data], limits)
    ensures var (sent, ok) := net.SendToClient(id, data, calls, ctlOk, limits);
            InvariantBut(sent, limits, {id}) && (ok ==> Invariant(sent, limits))
  {
    var (sent, ok) := net.SendToClient(id, data, calls, ctlOk, limits);
    assert Wired(net, id) && Accounted(net, id);
    SendTouches(net, id, data, calls, ctlOk, limits);
    SendAccounts(net, id, data, calls, ctlOk, limits);
    SendQueues(net, id, data, calls, ctlOk, limits);
    SameQueuesKeep(net, sent, limits);
    TouchKeeps(net, sent, id, limits);
    SendFlows(net, id, data, calls, ctlOk, limits);
    if ok {
      Whole(sent, id, limits);
    }
  }

  lemma SendQueues(net: Net, id: nat, data: string, calls: seq<SendCall>, ctlOk: bool, limits: Limits)
    requires id in net.connections
    ensures SameQueues(net, net.SendToClient(id, data, calls, ctlOk, limits).0)
  {
    hide EncodePacket, Sending, Kernel.Take;
  }

  lemma CloseQueues(net: Net, id: nat)
    ensures SameQueues(net, net.CloseConnection(id)) && SameQueues(net, net.FinishWith(id))
  {
  }

  /** Handling a response takes it off the list and does nothing else to any queue. */
  lemma RespondQueues(net: Net, calls: seq<SendCall>, ctlOk: bool, limits: Limits)
    requires net.pending != []
    ensures SameQueues(AfterTake(net), net.HandleResponse(calls, ctlOk, limits))
  {
    hide Net.SendToClient, Net.CloseConnection, Net.FinishWith;
    var id := net.pending[0].connectionId;
    if net.IsCurrent(id, net.pending[0].generation) {
      SendQueues(AfterTake(net), id, net.pending[0].data, calls, ctlOk, limits);
      CloseQueues(AfterTake(net).SendToClient(id, net.pending[0].data, calls, ctlOk, limits).0, id);
    }
  }

  lemma FinishKeeps(net: Net, id: nat, limits: Limits)
    requires Invariant(net, limits)
    ensures Invariant(net.FinishWith(id), limits)
  {
    if id in net.connections && net.connections[id].writeBuffer != "" {
      assert Wired(net, id) && Accounted(net, id) && Flowing(net, id, [], limits);
      var after := net.FinishWith(id);
      MarkClosing(net, id, limits);
      Weaken(net, limits, {id});
      TouchKeeps(net, after, id, limits);
      Whole(after, id, limits);
    } else {
      CloseKeeps(net, id, limits, {});
      assert {} - {id} == {};
    }
  }

  lemma MarkClosing(net: Net, id: nat, limits: Limits)
    requires id in net.connections && net.connections[id].writeBuffer != ""
    requires Accounted(net, id) && Flowing(net, id, [], limits) && Queued(net, limits)
    ensures var after := net.FinishWith(id);
            && OnlyTouches(net, after, id) && Accounted(after, id)
            && Flowing(after, id, [], limits) && Queued(after, limits)
  {
    SameQueuesKeep(net, net.FinishWith(id), limits);
  }

  /** Since a generation always equals its connection id, comparing generations never changes the
      answer: what matters is whether the connection is still there. */
  lemma GenerationNeverDecides(net: Net, limits: Limits)
    requires Invariant(net, limits)
    ensures forall r :: r in net.pending + net.responses ==>
              (net.IsCurrent(r.connectionId, r.generation) <==> r.connectionId in net.connections)
    ensures forall r :: r in net.closes + net.pendingCloses ==>
              (net.IsCurrent(r.connectionId, r.generation) <==> r.connectionId in net.connections)
  {
    forall r | r in net.pending + net.responses && r.connectionId in net.connections
      ensures net.IsCurrent(r.connectionId, r.generation)
    {
      assert r in net.history.pushed[net.history.taken..];
      assert Wired(net, r.connectionId);
    }
    forall r | r in net.closes + net.pendingCloses && r.connectionId in net.connections
      ensures net.IsCurrent(r.connectionId, r.generation)
    {
      assert Wired(net, r.connectionId);
    }
  }

  lemma RespondKeeps(net: Net, calls: seq<SendCall>, ctlOk: bool, limits: Limits)
    requires Invariant(net, limits) && net.pending != []
    ensures Invariant(net.HandleResponse(calls, ctlOk, limits), limits)
  {
    var response := net.pending[0];
    var id := response.connectionId;
    var taken := AfterTake(net);
    assert response in net.pending + net.responses;
    GenerationNeverDecides(net, limits);
    TakeKeeps(net, limits);
    if id !in net.connections {
      Whole(taken, id, limits);
    } else {
      SendKeeps(taken, id, response.data, calls, ctlOk, limits);
      var (sent, ok) := taken.SendToClient(id, response.data, calls, ctlOk, limits);
      CloseKeeps(sent, id, limits, {id});
      assert {id} - {id} == {};
      if ok {
        FinishKeeps(sent, id, limits);
      }
    }
  }

  // ------------------------------------------------------------ flushing

  lemma FlushTakes(net: Net, id: nat, calls: seq<SendCall>, limits: Limits)
    requires id in net.connections && Wired(net, id) && Accounted(net, id) && Flowing(net, id, [], limits)
    ensures var c := net.connections[id];
            var r := Sending(0, |c.writeBuffer|, calls);
            var wire := net.kernel.wire[id] + c.writeBuffer[..r.sent];
            && net.kernel.Take(c.fd, c.writeBuffer[..r.sent]).wire == net.kernel.wire[id := wire]
            && wire + c.writeBuffer[r.sent..] == EncodeAll(net.history.handed[id])
            && wire <= EncodeAll(net.history.handed[id])
            && (r.status.SendOk? ==> wire + "" == EncodeAll(net.history.handed[id]))
  {
    hide Decode, DataFor, EncodeAll, Frame, Sending, Accounted;
    var c := net.connections[id];
    var r := Sending(0, |c.writeBuffer|, calls);
    assert c.writeBuffer == c.writeBuffer[..r.sent] + c.writeBuffer[r.sent..];
    if r.status.SendOk? {
      assert c.writeBuffer[r.sent..] == "";
    }
  }

  /** The two states a flush can leave before anything is closed. */
  function AfterFlush(net: Net, id: nat, calls: seq<SendCall>, ctlOk: bool): Net
    requires id in net.connections
  {
    var c := net.connections[id];
    var r := Sending(0, |c.writeBuffer|, calls);
    var kernel := net.kernel.Take(c.fd, c.writeBuffer[..r.sent]);
    match r.status
    case SendIoError => net.(kernel := kernel)
    case SendWouldBlock =>
      net.(kernel := kernel, connections := net.connections[id := c.(writeBuffer := c.writeBuffer[r.sent..])])
    case SendOk =>
      net.(kernel := kernel.Watch(c.fd, false, ctlOk), connections := net.connections[id := c.(writeBuffer := "")])
  }

  lemma FlushTouches(net: Net, id: nat, calls: seq<SendCall>, ctlOk: bool)
    requires id in net.connections && Wired(net, id)
    ensures OnlyTouches(net, AfterFlush(net, id, calls, ctlOk), id)
  {
    var c := net.connections[id];
    var r := Sending(0, |c.writeBuffer|, calls);
    TakeTouches(net, id, c.writeBuffer[..r.sent],
                match r.status
                case SendIoError => c
                case SendWouldBlock => c.(writeBuffer := c.writeBuffer[r.sent..])
                case SendOk => c.(writeBuffer := ""), false, net.history);
    assert net.connections[id := c] == net.connections;
  }

  /** The connection stays: its buffer is not empty, or it was emptied and nothing else is wanted. */
  predicate FlushSettles(net: Net, id: nat, calls: seq<SendCall>, ctlOk: bool)
    requires id in net.connections
  {
    var r := Sending(0, |net.connections[id].writeBuffer|, calls);
    r.status.SendWouldBlock? || (r.status.SendOk? && ctlOk && !net.connections[id].closing)
  }

  lemma FlushFlows(net: Net, id: nat, calls: seq<SendCall>, ctlOk: bool, limits: Limits)
    requires id in net.connections && Wired(net, id) && Accounted(net, id) && Flowing(net, id, [], limits)
    requires net.connections[id].writeBuffer != ""
    ensures Accounted(AfterFlush(net, id, calls, ctlOk), id)
    ensures FlushSettles(net, id, calls, ctlOk) ==> Flowing(AfterFlush(net, id, calls, ctlOk), id, [], limits)
  {
    FlushTakes(net, id, calls, limits);
  }

  /** The branches of `flush_write_buffer`. */
  lemma FlushCases(net: Net, fd: int, calls: seq<SendCall>, ctlOk: bool)
    requires Indexed(net)
    ensures
      var found := net.FindByFd(fd);
      var after := net.FlushWriteBuffer(fd, calls, ctlOk);
      if found.None? || net.connections[found.value].writeBuffer == "" then after == net
      else if FlushSettles(net, found.value, calls, ctlOk) then after == AfterFlush(net, found.value, calls, ctlOk)
      else after == AfterFlush(net, found.value, calls, ctlOk).CloseConnection(found.value)
  {
  }

  lemma FlushKeeps(net: Net, fd: int, calls: seq<SendCall>, ctlOk: bool, limits: Limits)
    requires Invariant(net, limits)
    ensures Invariant(net.FlushWriteBuffer(fd, calls, ctlOk), limits)
  {
    FlushCases(net, fd, calls, ctlOk);
    var found := net.FindByFd(fd);
    if found.Some? && net.connections[found.value].writeBuffer != "" {
      FlushedKeeps(net, found.value, calls, ctlOk, limits);
    }
  }

  lemma FlushedKeeps(net: Net, id: nat, calls: seq<SendCall>, ctlOk: bool, limits: Limits)
    requires Invariant(net, limits) && id in net.connections && net.connections[id].writeBuffer != ""
    ensures var after := AfterFlush(net, id, calls, ctlOk);
            Invariant(if FlushSettles(net, id, calls, ctlOk) then after else after.CloseConnection(id), limits)
  {
    assert Wired(net, id) && Accounted(net, id) && Flowing(net, id, [], limits);
    var after := AfterFlush(net, id, calls, ctlOk);
    FlushTouches(net, id, calls, ctlOk);
    FlushFlows(net, id, calls, ctlOk, limits);
    Weaken(net, limits, {id});
    FlushQueues(net, id, calls, ctlOk);
    SameQueuesKeep(net, after, limits);
    TouchKeeps(net, after, id, limits);
    if FlushSettles(net, id, calls, ctlOk) {
      Whole(after, id, limits);
    } else {
      CloseKeeps(after, id, limits, {id});
      assert {id} - {id} == {};
    }
  }

  lemma FlushQueues(net: Net, id: nat, calls: seq<SendCall>, ctlOk: bool)
    requires id in net.connections
    ensures SameQueues(net, AfterFlush(net, id, calls, ctlOk))
  {
  }

  lemma FlushLeavesQueues(net: Net, fd: int, calls: seq<SendCall>, ctlOk: bool)
    ensures SameQueues(net, net.FlushWriteBuffer(fd, calls, ctlOk))
  {
    hide Sending, Kernel.Take;
  }

  // ------------------------------------------------------------ queues

  lemma ProcessKeeps(net: Net, b: nat, outbound: seq<Outbound>, limits: Limits)
    requires Invariant(net, limits) && Enabled(net, Processed(b, outbound))
    ensures Invariant(net.ProcessPacket(b, outbound, limits), limits)
  {
    var after := net.ProcessPacket(b, outbound, limits);
    ProcessQueues(net, b, outbound, limits);
    SameConnections(net, after, limits);
  }

  lemma ProcessQueues(net: Net, b: nat, outbound: seq<Outbound>, limits: Limits)
    requires Queued(net, limits) && Enabled(net, Processed(b, outbound))
    ensures var after := net.ProcessPacket(b, outbound, limits);
            && Queued(after, limits)
            && |after.history.pushed| >= |net.history.pushed|
            && after.history.pushed[..net.history.taken] == net.history.pushed[..net.history.taken]
  {
    hide Net.SendToClient;
    var h := net.history;
    var batch := net.work[b];
    assert Issued(net, batch.connectionId, batch.generation);
    var entries := QueueEntries(outbound, batch.connectionId, batch.generation);
    AppendQueued(h.pushed, h.taken, net.pending, net.responses, entries);
  }

  lemma AppendQueued(
    pushed: seq<Response>, taken: nat, pending: seq<Response>, responses: seq<Response>, entries: seq<Response>)
    requires taken <= |pushed| && pushed[taken..] == pending + responses
    ensures (pushed + entries)[taken..] == pending + (responses + entries)
    ensures (pushed + entries)[..taken] == pushed[..taken]
  {
    assert (pushed + entries)[taken..] == pushed[taken..] + entries;
  }

  /** A step that changes only queues keeps the rest. */
  lemma SameConnections(net: Net, after: Net, limits: Limits)
    requires Invariant(net, limits) && Queued(after, limits)
    requires after.connections == net.connections && after.byFd == net.byFd && after.kernel == net.kernel
    requires after.nextId == net.nextId && after.nextGeneration == net.nextGeneration
    requires after.history.(pushed := net.history.pushed) == net.history
    requires |after.history.pushed| >= |net.history.pushed|
    requires after.history.pushed[..net.history.taken] == net.history.pushed[..net.history.taken]
    ensures Invariant(after, limits)
  {
    forall id | id in after.connections ensures Wired(after, id) && Flowing(after, id, [], limits) {
      assert Wired(net, id) && Flowing(net, id, [], limits);
    }
    forall id | 1 <= id < after.nextId ensures Accounted(after, id) {
      assert Accounted(net, id);
    }
  }

  lemma SwapKeeps(net: Net, limits: Limits)
    requires Invariant(net, limits)
    ensures net.pending == [] ==> Invariant(net.(pending := net.responses, responses := []), limits)
    ensures net.pendingCloses == [] ==> Invariant(net.(pendingCloses := net.closes, closes := []), limits)
  {
    if net.pending == [] {
      assert [] + net.responses == net.responses == net.responses + [];
      SameConnections(net, net.(pending := net.responses, responses := []), limits);
    }
    if net.pendingCloses == [] {
      SameConnections(net, net.(pendingCloses := net.closes, closes := []), limits);
    }
  }

  lemma CloseRequestKeeps(net: Net, limits: Limits)
    requires Invariant(net, limits) && net.pendingCloses != []
    ensures Invariant(net.HandleClose(), limits)
  {
    var after := net.(pendingCloses := net.pendingCloses[1..]);
    SameConnections(net, after, limits);
    CloseKeeps(after, net.pendingCloses[0].connectionId, limits, {});
    assert {} - {net.pendingCloses[0].connectionId} == {};
  }

  // ------------------------------------------------------------ runs

  lemma StepKeeps(net: Net, step: Step, limits: Limits)
    requires Invariant(net, limits) && Enabled(net, step)
    ensures Invariant(Apply(net, step, limits), limits)
  {
    match step
    case Accepted(fd, registered, now) => AcceptKeeps(net, fd, registered, now, limits);
    case Readable(fd, received, now, queued) => ReadKeeps(net, fd, received, now, queued, limits);
    case Processed(b, outbound) => ProcessKeeps(net, b, outbound, limits);
    case SwapResponses => SwapKeeps(net, limits);
    case Respond(calls, ctlOk) => RespondKeeps(net, calls, ctlOk, limits);
    case SwapCloses => SwapKeeps(net, limits);
    case CloseRequested => CloseRequestKeeps(net, limits);
    case Writable(fd, calls, ctlOk) => FlushKeeps(net, fd, calls, ctlOk, limits);
    case Drop(id) => CloseKeeps(net, id, limits, {}); assert {} - {id} == {};
  }

  /** Every state of every run satisfies the invariant, over every interleaving of the workers with
      the reactor and every choice of the kernel. */
  lemma {:induction false} Always(states: seq<Net>, steps: seq<Step>, limits: Limits, k: nat)
    requires Run(states, steps, limits) && k < |states|
    ensures Invariant(states[k], limits)
  {
    if k == 0 {
      InitialHolds(states[0], limits);
    } else {
      Always(states, steps, limits, k - 1);
      assert Next(states[k - 1], steps[k - 1], states[k - 1 + 1], limits);
      StepKeeps(states[k - 1], steps[k - 1], limits);
    }
  }

  lemma ReachableHolds(net: Net, limits: Limits)
    requires Reachable(net, limits)
    ensures Invariant(net, limits)
  {
    var states, steps :| Run(states, steps, limits) && states[|steps|] == net;
    Always(states, steps, limits, |steps|);
  }
}
