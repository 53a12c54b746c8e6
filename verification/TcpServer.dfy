/** The reactor as the object it is: handlers that update tables, counters, queues and buffers in
    place. Each is proved to perform the steps of `ServerState`, so that the object's states are
    reachable ones and everything proved of those holds of it. */
module TcpServer {
  import opened Wrappers
  import opened PacketCodec
  import opened PacketIo
  import opened ServerState
  import opened ServerInvariant

  /** One return of `accept4`: a descriptor that is not open, and whether epoll takes it. */
  datatype AcceptCall = Client(fd: int, registered: bool, now: int) | NoMoreClients

  predicate FreshDescriptors(net: Net, calls: seq<AcceptCall>)
    decreases |calls|
  {
    if calls == [] || calls[0].NoMoreClients? then true
    else calls[0].fd !in net.kernel.open
         && FreshDescriptors(net.Accept(calls[0].fd, calls[0].registered, calls[0].now), calls[1..])
  }

  function AcceptAll(net: Net, calls: seq<AcceptCall>): Net
    decreases |calls|
  {
    if calls == [] || calls[0].NoMoreClients? then net
    else AcceptAll(net.Accept(calls[0].fd, calls[0].registered, calls[0].now), calls[1..])
  }

  /** Working off `pendingCloses`. */
  function FinishCloses(net: Net): Net
    decreases |net.pendingCloses|
  {
    if net.pendingCloses == [] then net else FinishCloses(net.HandleClose())
  }

  function DrainCloses(net: Net): Net {
    FinishCloses(net.(pendingCloses := net.closes, closes := []))
  }

  datatype Outlet = Outlet(calls: seq<SendCall>, ctlOk: bool)

  /** Working off `pending`; `kernel(k)` is how the kernel treats the k-th response. */
  function FinishResponses(net: Net, kernel: nat -> Outlet, k: nat, limits: Limits): Net
    decreases |net.pending|
  {
    if net.pending == [] then net
    else
      var next := net.HandleResponse(kernel(k).calls, kernel(k).ctlOk, limits);
      PendingShrinks(net, kernel(k).calls, kernel(k).ctlOk, limits);
      FinishResponses(next, kernel, k + 1, limits)
  }

  function DrainAll(net: Net, kernel: nat -> Outlet, limits: Limits): Net {
    var closed := DrainCloses(net);
    var swapped := closed.(pending := closed.responses, responses := []);
    DrainCloses(FinishResponses(swapped, kernel, 0, limits))
  }

  lemma PendingShrinks(net: Net, calls: seq<SendCall>, ctlOk: bool, limits: Limits)
    requires net.pending != []
    ensures net.HandleResponse(calls, ctlOk, limits).pending == net.pending[1..]
    ensures net.HandleResponse(calls, ctlOk, limits).pendingCloses == net.pendingCloses
    ensures net.HandleResponse(calls, ctlOk, limits).responses == net.responses
    ensures net.HandleResponse(calls, ctlOk, limits).closes == net.closes
  {
    hide Net.HandleResponse;
    RespondQueues(net, calls, ctlOk, limits);
  }

  /** Closing a set of connections, in any order. */
  function CloseEach(net: Net, ids: set<nat>): Net {
    var fds := set id | id in ids && id in net.connections :: net.connections[id].fd;
    net.(connections := net.connections - ids, byFd := net.byFd - fds,
         kernel := net.kernel.(open := net.kernel.open - fds, armed := net.kernel.armed - fds))
  }

  lemma CloseOneMore(net: Net, ids: set<nat>, id: nat)
    requires id !in ids
    ensures CloseEach(net, ids).CloseConnection(id) == CloseEach(net, ids + {id})
  {
    var fds := set x | x in ids && x in net.connections :: net.connections[x].fd;
    var fds' := set x | x in ids + {id} && x in net.connections :: net.connections[x].fd;
    if id in net.connections {
      assert fds' == fds + {net.connections[id].fd};
      assert net.connections - (ids + {id}) == (net.connections - ids) - {id};
    } else {
      assert fds' == fds;
      assert net.connections - (ids + {id}) == net.connections - ids;
    }
  }

  lemma CloseNone(net: Net)
    ensures CloseEach(net, {}) == net
  {
    var ids: set<nat> := {};
    assert (set id | id in ids && id in net.connections :: net.connections[id].fd) == {};
    assert net.connections - {} == net.connections && net.byFd - {} == net.byFd;
    assert net.kernel.open - {} == net.kernel.open && net.kernel.armed - {} == net.kernel.armed;
  }

  function TimedOut(net: Net, now: int, timeout: int): set<nat> {
    set id | id in net.connections && now - net.connections[id].lastActive > timeout
  }

  // ------------------------------------------------ composite steps are runs

  lemma StepReaches(net: Net, step: Step, limits: Limits)
    requires Reachable(net, limits) && Enabled(net, step)
    ensures Reachable(Apply(net, step, limits), limits)
  {
    hide Apply, Enabled, Initial;
    var states, steps :| Run(states, steps, limits) && states[|steps|] == net;
    var states', steps' := states + [Apply(net, step, limits)], steps + [step];
    forall i | 0 <= i < |steps'| ensures Next(states'[i], steps'[i], states'[i + 1], limits) {
      assert i < |steps| ==> Next(states[i], steps[i], states[i + 1], limits);
    }
    assert Run(states', steps', limits) && states'[|steps'|] == Apply(net, step, limits);
  }

  lemma InitialReachable(net: Net, limits: Limits)
    requires Initial(net)
    ensures Reachable(net, limits)
  {
    var states, steps: seq<Step> := [net], [];
    assert Run(states, steps, limits) && states[|steps|] == net;
  }

  lemma {:induction false} AcceptAllRuns(net: Net, calls: seq<AcceptCall>, limits: Limits)
    requires Reachable(net, limits) && FreshDescriptors(net, calls)
    ensures Reachable(AcceptAll(net, calls), limits)
    decreases |calls|
  {
    if calls != [] && calls[0].Client? {
      StepReaches(net, Accepted(calls[0].fd, calls[0].registered, calls[0].now), limits);
      AcceptAllRuns(net.Accept(calls[0].fd, calls[0].registered, calls[0].now), calls[1..], limits);
    }
  }

  lemma {:induction false} FinishClosesRuns(net: Net, limits: Limits)
    requires Reachable(net, limits)
    ensures Reachable(FinishCloses(net), limits)
    decreases |net.pendingCloses|
  {
    if net.pendingCloses != [] {
      StepReaches(net, CloseRequested, limits);
      FinishClosesRuns(net.HandleClose(), limits);
    }
  }

  lemma {:induction false} FinishResponsesRuns(net: Net, kernel: nat -> Outlet, k: nat, limits: Limits)
    requires Reachable(net, limits)
    ensures Reachable(FinishResponses(net, kernel, k, limits), limits)
    ensures FinishResponses(net, kernel, k, limits).pending == []
    decreases |net.pending|
  {
    if net.pending != [] {
      StepReaches(net, Respond(kernel(k).calls, kernel(k).ctlOk), limits);
      PendingShrinks(net, kernel(k).calls, kernel(k).ctlOk, limits);
      FinishResponsesRuns(net.HandleResponse(kernel(k).calls, kernel(k).ctlOk, limits), kernel, k + 1, limits);
    }
  }

  lemma DrainClosesRuns(net: Net, limits: Limits)
    requires Reachable(net, limits) && net.pendingCloses == []
    ensures Reachable(DrainCloses(net), limits)
  {
    StepReaches(net, SwapCloses, limits);
    FinishClosesRuns(net.(pendingCloses := net.closes, closes := []), limits);
  }

  lemma {:induction false} FinishClosesEmpties(net: Net)
    ensures FinishCloses(net).pendingCloses == [] && FinishCloses(net).pending == net.pending
    ensures FinishCloses(net).responses == net.responses && FinishCloses(net).closes == net.closes
    decreases |net.pendingCloses|
  {
    if net.pendingCloses != [] {
      FinishClosesEmpties(net.HandleClose());
    }
  }

  lemma {:induction false} FinishResponsesEmpties(net: Net, kernel: nat -> Outlet, k: nat, limits: Limits)
    ensures FinishResponses(net, kernel, k, limits).pending == []
    ensures FinishResponses(net, kernel, k, limits).pendingCloses == net.pendingCloses
    ensures FinishResponses(net, kernel, k, limits).responses == net.responses
    ensures FinishResponses(net, kernel, k, limits).closes == net.closes
    decreases |net.pending|
  {
    hide Net.HandleResponse;
    if net.pending != [] {
      PendingShrinks(net, kernel(k).calls, kernel(k).ctlOk, limits);
      FinishResponsesEmpties(net.HandleResponse(kernel(k).calls, kernel(k).ctlOk, limits), kernel, k + 1, limits);
    }
  }

  /** A drain leaves nothing in the queues, nor on the lists swapped out of them. */
  lemma DrainEmpties(net: Net, kernel: nat -> Outlet, limits: Limits)
    ensures DrainAll(net, kernel, limits).pending == []
    ensures DrainAll(net, kernel, limits).pendingCloses == []
    ensures DrainAll(net, kernel, limits).responses == []
    ensures DrainAll(net, kernel, limits).closes == []
  {
    hide FinishResponses, FinishCloses;
    var closed := DrainCloses(net);
    var swapped := closed.(pending := closed.responses, responses := []);
    var finished := FinishResponses(swapped, kernel, 0, limits);
    FinishClosesEmpties(net.(pendingCloses := net.closes, closes := []));
    FinishResponsesEmpties(swapped, kernel, 0, limits);
    FinishClosesEmpties(finished.(pendingCloses := finished.closes, closes := []));
  }

  lemma DrainRuns(net: Net, kernel: nat -> Outlet, limits: Limits)
    requires Reachable(net, limits) && net.pending == [] && net.pendingCloses == []
    ensures Reachable(DrainAll(net, kernel, limits), limits)
  {
    var closed := DrainCloses(net);
    var swapped := closed.(pending := closed.responses, responses := []);
    DrainClosesRuns(net, limits);
    FinishClosesEmpties(net.(pendingCloses := net.closes, closes := []));
    StepReaches(closed, SwapResponses, limits);
    FinishResponsesRuns(swapped, kernel, 0, limits);
    FinishResponsesEmpties(swapped, kernel, 0, limits);
    DrainClosesRuns(FinishResponses(swapped, kernel, 0, limits), limits);
  }

  lemma {:induction false} CloseEachRuns(net: Net, ids: set<nat>, limits: Limits)
    requires Reachable(net, limits)
    ensures Reachable(CloseEach(net, ids), limits)
  {
    if ids == {} {
      CloseNone(net);
    } else {
      var id :| id in ids;
      CloseEachRuns(net, ids - {id}, limits);
      CloseOneMore(net, ids - {id}, id);
      assert ids - {id} + {id} == ids;
      StepReaches(CloseEach(net, ids - {id}), Drop(id), limits);
    }
  }

  lemma NothingLeft(net: Net)
    requires Indexed(net) && net.connections == map[]
    ensures net.byFd == map[] && net.kernel.open == map[]
  {
    assert forall fd :: fd !in net.byFd;
    assert net.byFd == map[];
    assert net.kernel.open.Keys == {};
  }

  // ------------------------------------------------------------ the event loop

  datatype Arrival = Arrival(calls: seq<RecvCall>, now: int, queued: bool)

  datatype Event =
    | NewClients(calls: seq<AcceptCall>)
    | Wake(kernel: nat -> Outlet)
    | HangUp(fd: int)
    | Io(fd: int, readable: Option<Arrival>, writable: Option<Outlet>)

  /** What `epoll_wait` returns: nothing before the timeout, or events to serve. Either way the
      responses are drained afterwards. */
  datatype Round =
    | Idle(now: int, timeout: int, kernel: nat -> Outlet)
    | Ready(events: seq<Event>, kernel: nat -> Outlet)

  function ServeEvent(net: Net, event: Event, limits: Limits): Net {
    match event
    case NewClients(calls) => AcceptAll(net, calls)
    case Wake(kernel) => DrainAll(net, kernel, limits)
    case HangUp(fd) =>
      if fd in net.byFd then net.CloseConnection(net.byFd[fd]) else net.(kernel := net.kernel.Close(fd))
    case Io(fd, readable, writable) =>
      var read := if readable.None? then net
                  else net.HandleClientRead(fd, readable.value.calls, readable.value.now, readable.value.queued, limits);
      if writable.None? then read else read.FlushWriteBuffer(fd, writable.value.calls, writable.value.ctlOk)
  }

  function ServeEvents(net: Net, events: seq<Event>, limits: Limits): Net
    decreases |events|
  {
    if events == [] then net else ServeEvents(ServeEvent(net, events[0], limits), events[1..], limits)
  }

  function ServeRound(net: Net, round: Round, limits: Limits): Net {
    match round
    case Idle(now, timeout, kernel) => DrainAll(CloseEach(net, TimedOut(net, now, timeout)), kernel, limits)
    case Ready(events, kernel) => DrainAll(ServeEvents(net, events, limits), kernel, limits)
  }

  /** The environment: `accept4` returns descriptors that are not open. An event may be stale: for a
      descriptor that was closed since, or that belongs to a new connection by now. */
  predicate EventOk(net: Net, event: Event) {
    event.NewClients? ==> FreshDescriptors(net, event.calls)
  }

  predicate EventsOk(net: Net, events: seq<Event>, limits: Limits)
    decreases |events|
  {
    events == [] || (EventOk(net, events[0]) && EventsOk(ServeEvent(net, events[0], limits), events[1..], limits))
  }

  predicate RoundOk(net: Net, round: Round, limits: Limits) {
    round.Idle? || EventsOk(net, round.events, limits)
  }

  /** A reachable state between two handlers of the reactor. */
  ghost predicate AtRest(net: Net, limits: Limits) {
    Reachable(net, limits) && net.pending == [] && net.pendingCloses == []
  }

  lemma {:induction false} AcceptAllRests(net: Net, calls: seq<AcceptCall>)
    ensures AcceptAll(net, calls).pending == net.pending && AcceptAll(net, calls).pendingCloses == net.pendingCloses
    decreases |calls|
  {
    if calls != [] && calls[0].Client? {
      AcceptAllRests(net.Accept(calls[0].fd, calls[0].registered, calls[0].now), calls[1..]);
    }
  }

  lemma IoRuns(net: Net, fd: int, readable: Option<Arrival>, writable: Option<Outlet>, limits: Limits)
    requires AtRest(net, limits)
    ensures AtRest(ServeEvent(net, Io(fd, readable, writable), limits), limits)
  {
    var read := net;
    if readable.Some? {
      StepReaches(net, Readable(fd, readable.value.calls, readable.value.now, readable.value.queued), limits);
      read := net.HandleClientRead(fd, readable.value.calls, readable.value.now, readable.value.queued, limits);
      ReadRests(net, fd, readable.value, limits);
    }
    if writable.Some? {
      StepReaches(read, Writable(fd, writable.value.calls, writable.value.ctlOk), limits);
      FlushRests(read, fd, writable.value);
    }
  }

  lemma ReadRests(net: Net, fd: int, arrival: Arrival, limits: Limits)
    ensures var read := net.HandleClientRead(fd, arrival.calls, arrival.now, arrival.queued, limits);
            read.pending == net.pending && read.pendingCloses == net.pendingCloses
  {
  }

  lemma FlushRests(net: Net, fd: int, outlet: Outlet)
    ensures var flushed := net.FlushWriteBuffer(fd, outlet.calls, outlet.ctlOk);
            flushed.pending == net.pending && flushed.pendingCloses == net.pendingCloses
  {
    hide Net.FlushWriteBuffer;
    FlushLeavesQueues(net, fd, outlet.calls, outlet.ctlOk);
  }

  /** Closing a descriptor that is not registered does nothing: it is not open. */
  lemma UnknownIsClosed(net: Net, fd: int, limits: Limits)
    requires Reachable(net, limits) && fd !in net.byFd
    ensures net.(kernel := net.kernel.Close(fd)) == net
  {
    ReachableHolds(net, limits);
    assert fd !in net.kernel.open.Keys && fd !in net.kernel.armed.Keys;
    assert net.kernel.open - {fd} == net.kernel.open && net.kernel.armed - {fd} == net.kernel.armed;
  }

  lemma EventRuns(net: Net, event: Event, limits: Limits)
    requires AtRest(net, limits) && EventOk(net, event)
    ensures AtRest(ServeEvent(net, event, limits), limits)
  {
    match event
    case NewClients(calls) => AcceptAllRuns(net, calls, limits); AcceptAllRests(net, calls);
    case Wake(kernel) => DrainRuns(net, kernel, limits); DrainEmpties(net, kernel, limits);
    case HangUp(fd) =>
      if fd in net.byFd {
        StepReaches(net, Drop(net.byFd[fd]), limits);
      } else {
        UnknownIsClosed(net, fd, limits);
      }
    case Io(fd, readable, writable) => IoRuns(net, fd, readable, writable, limits);
  }

  lemma {:induction false} EventsRun(net: Net, events: seq<Event>, limits: Limits)
    requires AtRest(net, limits) && EventsOk(net, events, limits)
    ensures AtRest(ServeEvents(net, events, limits), limits)
    decreases |events|
  {
    if events != [] {
      EventRuns(net, events[0], limits);
      EventsRun(ServeEvent(net, events[0], limits), events[1..], limits);
    }
  }

  /** One turn of the event loop, whatever events it serves, is a run of steps. */
  lemma RoundRuns(net: Net, round: Round, limits: Limits)
    requires AtRest(net, limits) && RoundOk(net, round, limits)
    ensures AtRest(ServeRound(net, round, limits), limits)
    ensures ServeRound(net, round, limits).responses == [] && ServeRound(net, round, limits).closes == []
  {
    match round
    case Idle(now, timeout, kernel) =>
      CloseEachRuns(net, TimedOut(net, now, timeout), limits);
      DrainRuns(CloseEach(net, TimedOut(net, now, timeout)), kernel, limits);
      DrainEmpties(CloseEach(net, TimedOut(net, now, timeout)), kernel, limits);
    case Ready(events, kernel) =>
      EventsRun(net, events, limits);
      DrainRuns(ServeEvents(net, events, limits), kernel, limits);
      DrainEmpties(ServeEvents(net, events, limits), kernel, limits);
  }

  // ------------------------------------------------------------ the object

  class TcpServer {
    const limits: Limits
    var connections: map<nat, Connection>
    var connectionByFd: map<int, nat>
    var nextConnectionId: nat
    var nextGeneration: nat
    var responseQueue: seq<Response>
    var closeQueue: seq<CloseRequest>

    /** The state the fields are part of: with it come the kernel's side, the batches at the thread
        pool and the history. */
    ghost var net: Net

    ghost predicate Mirrors()
      reads this
    {
      && net.connections == connections && net.byFd == connectionByFd
      && net.nextId == nextConnectionId && net.nextGeneration == nextGeneration
      && net.responses == responseQueue && net.closes == closeQueue
    }

    ghost predicate Valid()
      reads this
    {
      Mirrors() && AtRest(net, limits)
    }

    constructor (limits: Limits)
      ensures Valid() && this.limits == limits && Initial(net)
    {
      this.limits := limits;
      connections, connectionByFd := map[], map[];
      nextConnectionId, nextGeneration := 1, 1;
      responseQueue, closeQueue := [], [];
      net := Net(map[], map[], 1, 1, [], [], [], [], [], Kernel(map[], map[], map[], 0),
                 History(map[], map[], map[], [], 0));
      new;
      InitialReachable(net, limits);
    }

    method AcceptConnections(calls: seq<AcceptCall>)
      requires Mirrors()
      modifies this
      ensures Mirrors() && net == AcceptAll(old(net), calls)
    {
      var i := 0;
      while i < |calls| && calls[i].Client?
        invariant 0 <= i <= |calls|
        invariant Mirrors()
        invariant AcceptAll(old(net), calls) == AcceptAll(net, calls[i..])
      {
        var clientFd, registered, now := calls[i].fd, calls[i].registered, calls[i].now;
        assert calls[i..][1..] == calls[i + 1..];
        net := net.Accept(clientFd, registered, now);
        var connectionId, generation := nextConnectionId, nextGeneration;
        nextConnectionId, nextGeneration := nextConnectionId + 1, nextGeneration + 1;
        if registered {
          connectionByFd := connectionByFd[clientFd := connectionId];
          connections := connections[connectionId := Connection(clientFd, "", "", now, false, generation)];
        }
        i := i + 1;
      }
    }

    method CloseConnection(id: nat)
      requires Mirrors()
      modifies this
      ensures Mirrors() && net == old(net).CloseConnection(id)
    {
      if id in connections {
        var clientFd := connections[id].fd;
        connectionByFd := connectionByFd - {clientFd};
        connections := connections - {id};
        net := net.CloseConnection(id);
      }
    }

    /** A descriptor the server does not know is closed, too. */
    method CloseClient(clientFd: int)
      requires Mirrors()
      modifies this
      ensures Mirrors() && net == ServeEvent(old(net), HangUp(clientFd), limits)
    {
      if clientFd !in connectionByFd {
        net := net.(kernel := net.kernel.Close(clientFd));
        return;
      }
      CloseConnection(connectionByFd[clientFd]);
    }

    /** `queued` is the answer of the thread pool's `enqueue`. */
    method HandleClientRead(clientFd: int, calls: seq<RecvCall>, now: int, queued: bool)
      requires Mirrors()
      modifies this
      ensures Mirrors() && net == old(net).HandleClientRead(clientFd, calls, now, queued, limits)
    {
      hide Receive, ReadAll;
      if clientFd !in connectionByFd || connectionByFd[clientFd] !in connections {
        return;
      }
      var id := connectionByFd[clientFd];
      var connection := connections[id];
      if connection.closing {
        return;
      }
      var result := RecvPackets(calls, connection.readBuffer, MAX_PAYLOAD);
      connections := connections[id := connection.(readBuffer := result.buffer)];
      net := net.(connections := connections, history := net.history.Arrive(id, ReadAll(calls).1));
      if result.status in {RecvClosed, RecvProtocolError, RecvIoError} || |result.buffer| > limits.maxRead {
        CloseConnection(id);
      } else if result.packets != [] {
        connections := connections[id := connection.(readBuffer := result.buffer, lastActive := now)];
        net := net.(connections := connections);
        if queued {
          net := net.(work := net.work + [Batch(id, connection.generation, [], result.packets)],
                      history := net.history.Submit(id, result.packets));
        } else {
          CloseConnection(id);
        }
      }
    }

    /** On a worker: batch `b`'s first packet has been through the chat service. */
    method ProcessPacketAsync(connectionId: nat, generation: nat, outbound: seq<Outbound>, ghost b: nat)
      requires Mirrors() && Enabled(net, Processed(b, outbound))
      requires net.work[b].connectionId == connectionId && net.work[b].generation == generation
      modifies this
      ensures Mirrors() && net == old(net).ProcessPacket(b, outbound, limits)
    {
      net := net.ProcessPacket(b, outbound, limits);
      if |responseQueue| + |outbound| > limits.maxResponses {
        closeQueue := closeQueue + [CloseRequest(connectionId, generation)];
      } else {
        ghost var queue := responseQueue;
        ghost var entries := QueueEntries(outbound, connectionId, generation);
        for i := 0 to |outbound|
          invariant responseQueue == queue + entries[..i]
          invariant connections == old(connections) && connectionByFd == old(connectionByFd) && closeQueue == old(closeQueue)
          invariant nextConnectionId == old(nextConnectionId) && nextGeneration == old(nextGeneration)
          invariant net == old(net).ProcessPacket(b, outbound, limits)
        {
          var message := outbound[i];
          responseQueue := responseQueue + [Response(
            message.connectionId, if message.connectionId == connectionId then generation else 0,
            message.data, message.closeAfterSend)];
          assert entries[..i + 1] == entries[..i] + [entries[i]];
        }
        assert entries[..|outbound|] == entries;
      }
    }

    method SetWriteMode(clientFd: int, enable: bool, ctlOk: bool) returns (ok: bool)
      requires Mirrors()
      modifies this
      ensures Mirrors() && ok == ctlOk
      ensures net == old(net).(kernel := old(net).kernel.Watch(clientFd, enable, ctlOk))
    {
      net := net.(kernel := net.kernel.Watch(clientFd, enable, ctlOk));
      ok := ctlOk;
    }

    method SendToClient(id: nat, data: string, calls: seq<SendCall>, ctlOk: bool) returns (ok: bool)
      requires Mirrors() && id in connections
      modifies this
      ensures Mirrors() && (net, ok) == old(net).SendToClient(id, data, calls, ctlOk, limits)
    {
      var encoded := EncodePacket(data);
      if encoded.Err? {
        return false;
      }
      var packet, connection := encoded.value, connections[id];
      net := net.(history := net.history.Hand(id, data));
      if connection.writeBuffer != "" {
        connections := connections[id := connection.(writeBuffer := connection.writeBuffer + packet)];
        net := net.(connections := connections);
        return |connections[id].writeBuffer| <= limits.maxWrite;
      }
      var result, taken := SendAll(packet, calls);
      net := net.(kernel := net.kernel.Take(connection.fd, taken));
      if result.status.SendWouldBlock? {
        connections := connections[id := connection.(writeBuffer := packet[result.sent..])];
        net := net.(connections := connections);
        if |connections[id].writeBuffer| > limits.maxWrite {
          return false;
        }
        ok := SetWriteMode(connection.fd, true, ctlOk);
        return;
      }
      return !result.status.SendIoError?;
    }

    method FlushWriteBuffer(clientFd: int, calls: seq<SendCall>, ctlOk: bool)
      requires Mirrors()
      modifies this
      ensures Mirrors() && net == old(net).FlushWriteBuffer(clientFd, calls, ctlOk)
    {
      if clientFd !in connectionByFd || connectionByFd[clientFd] !in connections {
        return;
      }
      var id := connectionByFd[clientFd];
      var connection := connections[id];
      if connection.writeBuffer == "" {
        return;
      }
      var result, taken := SendAll(connection.writeBuffer, calls);
      net := net.(kernel := net.kernel.Take(clientFd, taken));
      if result.status.SendWouldBlock? {
        connections := connections[id := connection.(writeBuffer := connection.writeBuffer[result.sent..])];
        net := net.(connections := connections);
      } else if result.status.SendIoError? {
        CloseConnection(id);
      } else {
        connections := connections[id := connection.(writeBuffer := "")];
        net := net.(connections := connections);
        var ok := SetWriteMode(clientFd, false, ctlOk);
        if !ok || connection.closing {
          CloseConnection(id);
        }
      }
    }

    method DrainCloseRequests()
      requires Mirrors() && net.pendingCloses == []
      modifies this
      ensures Mirrors() && net == DrainCloses(old(net))
    {
      var pending := closeQueue;
      closeQueue := [];
      net := net.(pendingCloses := net.closes, closes := []);
      for i := 0 to |pending|
        invariant Mirrors() && net.pendingCloses == pending[i..]
        invariant FinishCloses(net) == DrainCloses(old(net))
      {
        var request := pending[i];
        ghost var before := net;
        net := net.(pendingCloses := net.pendingCloses[1..]);
        if request.connectionId in connections &&
           (request.generation == 0 || connections[request.connectionId].generation == request.generation) {
          CloseConnection(request.connectionId);
        }
        assert net == before.HandleClose();
      }
    }

    /** `kernel(k)` is how the kernel treats the sending of the k-th response. */
    method DrainResponses(kernel: nat -> Outlet)
      requires Mirrors() && net.pending == [] && net.pendingCloses == []
      modifies this
      ensures Mirrors() && net == DrainAll(old(net), kernel, limits)
      ensures responseQueue == [] && closeQueue == []
    {
      DrainEmpties(net, kernel, limits);
      FinishClosesEmpties(net.(pendingCloses := net.closes, closes := []));
      DrainCloseRequests();
      var pending := responseQueue;
      responseQueue := [];
      net := net.(pending := net.responses, responses := []);
      ghost var swapped := net;
      FinishResponsesEmpties(swapped, kernel, 0, limits);
      for k := 0 to |pending|
        invariant Mirrors() && net.pending == pending[k..]
        invariant FinishResponses(net, kernel, k, limits) == FinishResponses(swapped, kernel, 0, limits)
      {
        HandleResponse(pending[k], kernel(k).calls, kernel(k).ctlOk);
      }
      DrainCloseRequests();
    }

    method HandleResponse(response: Response, calls: seq<SendCall>, ctlOk: bool)
      requires Mirrors() && net.pending != [] && net.pending[0] == response
      modifies this
      ensures Mirrors() && net == old(net).HandleResponse(calls, ctlOk, limits)
      ensures net.pending == old(net).pending[1..]
    {
      PendingShrinks(net, calls, ctlOk, limits);
      var id := response.connectionId;
      net := AfterTake(net);
      if id !in connections || !(response.generation == 0 || connections[id].generation == response.generation) {
        return;
      }
      var ok := SendToClient(id, response.data, calls, ctlOk);
      if !ok {
        CloseConnection(id);
      } else if response.closeAfterSend && id in connections {
        if connections[id].writeBuffer == "" {
          CloseConnection(id);
        } else {
          connections := connections[id := connections[id].(closing := true)];
          net := net.(connections := connections);
        }
      }
    }

    method CloseAll(ids: set<nat>)
      requires Mirrors()
      modifies this
      ensures Mirrors() && net == CloseEach(old(net), ids)
    {
      var todo, done := ids, {};
      CloseNone(net);
      while todo != {}
        invariant todo + done == ids && todo !! done
        invariant Mirrors() && net == CloseEach(old(net), done)
        decreases todo
      {
        var id :| id in todo;
        CloseOneMore(old(net), done, id);
        CloseConnection(id);
        todo, done := todo - {id}, done + {id};
      }
      assert done == ids;
    }

    method CheckHeartbeats(now: int, timeout: int)
      requires Mirrors()
      modifies this
      ensures Mirrors() && net == CloseEach(old(net), TimedOut(old(net), now, timeout))
    {
      var timedOut, todo := {}, connections.Keys;
      while todo != {}
        invariant todo <= connections.Keys
        invariant timedOut == set id | id in connections && id !in todo && now - connections[id].lastActive > timeout
        decreases todo
      {
        var id :| id in todo;
        if now - connections[id].lastActive > timeout {
          timedOut := timedOut + {id};
        }
        todo := todo - {id};
      }
      assert timedOut == TimedOut(net, now, timeout);
      CloseAll(timedOut);
    }

    method Stop()
      requires Valid()
      modifies this
      ensures Valid() && connections == map[] && connectionByFd == map[]
      ensures net == CloseEach(old(net), old(connections).Keys) && net.kernel.open == map[]
    {
      CloseEachRuns(net, connections.Keys, limits);
      ReachableHolds(CloseEach(net, connections.Keys), limits);
      CloseAll(connections.Keys);
      assert connections.Keys == {};
      NothingLeft(net);
    }

    /** One return of `epoll_wait`. */
    method Serve(round: Round)
      requires Valid() && RoundOk(net, round, limits)
      modifies this
      ensures Valid() && net == ServeRound(old(net), round, limits)
      ensures responseQueue == [] && closeQueue == []
    {
      RoundRuns(net, round, limits);
      match round
      case Idle(now, timeout, kernel) =>
        CheckHeartbeats(now, timeout);
        DrainResponses(kernel);
      case Ready(events, kernel) =>
        for i := 0 to |events|
          invariant Mirrors()
          invariant AtRest(net, limits) && EventsOk(net, events[i..], limits)
          invariant ServeEvents(net, events[i..], limits) == ServeEvents(old(net), events, limits)
        {
          assert events[i..][1..] == events[i + 1..];
          EventRuns(net, events[i], limits);
          Dispatch(events[i]);
        }
        DrainResponses(kernel);
    }

    method Dispatch(event: Event)
      requires Mirrors() && net.pending == [] && net.pendingCloses == [] && EventOk(net, event)
      modifies this
      ensures Mirrors() && net == ServeEvent(old(net), event, limits)
    {
      match event
      case NewClients(calls) => AcceptConnections(calls);
      case Wake(kernel) => DrainResponses(kernel);
      case HangUp(fd) => CloseClient(fd);
      case Io(fd, readable, writable) =>
        if readable.Some? {
          HandleClientRead(fd, readable.value.calls, readable.value.now, readable.value.queued);
        }
        if writable.Some? {
          FlushWriteBuffer(fd, writable.value.calls, writable.value.ctlOk);
        }
    }
  }
}
