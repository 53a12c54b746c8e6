/** The reactor's state and its atomic steps, as functions on values. `TcpServer` performs these
    steps on its fields; the theorems about whole runs are about these functions. */
module ServerState {
  import opened Wrappers
  import opened PacketCodec
  import opened PacketIo

  datatype Limits = Limits(maxRead: nat, maxWrite: nat, maxResponses: nat)

  datatype Connection = Connection(
    fd: int, readBuffer: string, writeBuffer: string, lastActive: int, closing: bool, generation: nat)

  datatype Response = Response(connectionId: nat, generation: nat, data: string, closeAfterSend: bool)

  datatype CloseRequest = CloseRequest(connectionId: nat, generation: nat)

  /** The packets of one read, handed to the thread pool: those a worker has been through, and those
      still to be processed. */
  datatype Batch = Batch(connectionId: nat, generation: nat, handled: seq<string>, packets: seq<string>)

  /** What the chat service wants sent. */
  datatype Outbound = Outbound(connectionId: nat, data: string, closeAfterSend: bool)

  /** The kernel's side. The successful calls of `accept4` are numbered 1, 2, ...; `open` says which
      of them opened a descriptor, `armed` whether its epoll registration asks for EPOLLOUT, and
      `wire` is what the kernel has taken for each accepted socket, also after its descriptor number
      was closed and used again. */
  datatype Kernel = Kernel(open: map<int, nat>, armed: map<int, bool>, wire: map<nat, string>, accepts: nat) {
    function Accept(fd: int): Kernel {
      Kernel(open[fd := accepts + 1], armed, wire[accepts + 1 := ""], accepts + 1)
    }

    /** `epoll_ctl` with ADD or MOD; it may fail. */
    function Watch(fd: int, writable: bool, succeeds: bool): Kernel {
      if succeeds then this.(armed := armed[fd := writable]) else this
    }

    function Take(fd: int, bytes: string): Kernel {
      if fd in open && open[fd] in wire then this.(wire := wire[open[fd] := wire[open[fd]] + bytes]) else this
    }

    function Close(fd: int): Kernel {
      this.(open := open - {fd}, armed := armed - {fd})
    }
  }

  /** What happened so far: for each connection id the bytes received, the packets submitted to the
      pool and the payloads accepted for sending; every response ever queued, and how many of those
      the reactor has dealt with. */
  datatype History = History(
    arrived: map<nat, string>, submitted: map<nat, seq<string>>, handed: map<nat, seq<string>>,
    pushed: seq<Response>, taken: nat)
  {
    function Open(id: nat): History {
      this.(arrived := arrived[id := ""], submitted := submitted[id := []], handed := handed[id := []])
    }

    function Arrive(id: nat, data: string): History {
      if id in arrived then this.(arrived := arrived[id := arrived[id] + data]) else this
    }

    function Submit(id: nat, packets: seq<string>): History {
      if id in submitted then this.(submitted := submitted[id := submitted[id] + packets]) else this
    }

    function Hand(id: nat, data: string): History {
      if id in handed then this.(handed := handed[id := handed[id] + [data]]) else this
    }
  }

  function QueueEntries(outbound: seq<Outbound>, id: nat, generation: nat): seq<Response> {
    seq(|outbound|, i requires 0 <= i < |outbound| =>
      Response(outbound[i].connectionId, if outbound[i].connectionId == id then generation else 0,
               outbound[i].data, outbound[i].closeAfterSend))
  }

  /** `pending` and `pendingCloses` are the lists the reactor has swapped out of the shared queues and
      is working through; workers may add to the queues meanwhile. */
  datatype Net = Net(
    connections: map<nat, Connection>, byFd: map<int, nat>, nextId: nat, nextGeneration: nat,
    responses: seq<Response>, closes: seq<CloseRequest>,
    pending: seq<Response>, pendingCloses: seq<CloseRequest>,
    work: seq<Batch>, kernel: Kernel, history: History)
  {
    /** `accept4` returned `fd`; adding it to epoll may fail. */
    function Accept(fd: int, registered: bool, now: int): Net {
      var id, generation := nextId, nextGeneration;
      var net := this.(nextId := id + 1, nextGeneration := generation + 1,
                       kernel := kernel.Accept(fd).Watch(fd, false, registered), history := history.Open(id));
      if !registered then net.(kernel := net.kernel.Close(fd))
      else net.(byFd := byFd[fd := id],
                connections := connections[id := Connection(fd, "", "", now, false, generation)])
    }

    function CloseConnection(id: nat): Net {
      if id !in connections then this
      else
        var fd := connections[id].fd;
        this.(byFd := byFd - {fd}, connections := connections - {id}, kernel := kernel.Close(fd))
    }

    function FindByFd(fd: int): Option<nat> {
      if fd in byFd && byFd[fd] in connections then Some(byFd[fd]) else None
    }

    predicate IsCurrent(id: nat, generation: nat) {
      id in connections && (generation == 0 || connections[id].generation == generation)
    }

    /** EPOLLIN on `fd`. `queued` is whether the thread pool takes the batch. */
    function HandleClientRead(fd: int, calls: seq<RecvCall>, now: int, queued: bool, limits: Limits): Net {
      var found := FindByFd(fd);
      if found.None? || connections[found.value].closing then this
      else
        var id := found.value;
        var c := connections[id];
        var result := Receive(calls, c.readBuffer, MAX_PAYLOAD);
        var net := this.(connections := connections[id := c.(readBuffer := result.buffer)],
                         history := history.Arrive(id, ReadAll(calls).1));
        if result.status in {RecvClosed, RecvProtocolError, RecvIoError} then net.CloseConnection(id)
        else if |result.buffer| > limits.maxRead then net.CloseConnection(id)
        else if result.packets == [] then net
        else
          var active := net.(connections := connections[id := c.(readBuffer := result.buffer, lastActive := now)]);
          if queued then active.(work := work + [Batch(id, c.generation, [], result.packets)],
                                 history := net.history.Submit(id, result.packets))
          else active.CloseConnection(id)
    }

    /** A worker has run the first packet of batch `b` through the chat service: its responses go
        into the queue together or not at all. */
    function ProcessPacket(b: nat, outbound: seq<Outbound>, limits: Limits): Net
      requires b < |work| && work[b].packets != []
    {
      var batch := work[b];
      var next := batch.(handled := batch.handled + [batch.packets[0]], packets := batch.packets[1..]);
      var net := this.(work := work[b := next]);
      if |responses| + |outbound| > limits.maxResponses then
        net.(closes := closes + [CloseRequest(batch.connectionId, batch.generation)])
      else
        var entries := QueueEntries(outbound, batch.connectionId, batch.generation);
        net.(responses := responses + entries, history := history.(pushed := history.pushed + entries))
    }

    /** Frame a payload and send it, or append it to what is still unsent. False asks the caller to
        close the connection. */
    function SendToClient(id: nat, data: string, calls: seq<SendCall>, ctlOk: bool, limits: Limits): (Net, bool)
      requires id in connections
    {
      var encoded := EncodePacket(data);
      if encoded.Err? then (this, false)
      else
        var packet := encoded.value;
        var c := connections[id];
        var net := this.(history := history.Hand(id, data));
        if c.writeBuffer != "" then
          var buffer := c.writeBuffer + packet;
          (net.(connections := connections[id := c.(writeBuffer := buffer)]), |buffer| <= limits.maxWrite)
        else
          var r := Sending(0, |packet|, calls);
          var sent := net.(kernel := kernel.Take(c.fd, packet[..r.sent]));
          match r.status
          case SendOk => (sent, true)
          case SendIoError => (sent, false)
          case SendWouldBlock =>
            var buffer := packet[r.sent..];
            var kept := sent.(connections := connections[id := c.(writeBuffer := buffer)]);
            if |buffer| > limits.maxWrite then (kept, false)
            else (kept.(kernel := kept.kernel.Watch(c.fd, true, ctlOk)), ctlOk)
    }

    /** One pass of the loop in `drain_responses`. */
    function HandleResponse(calls: seq<SendCall>, ctlOk: bool, limits: Limits): Net
      requires pending != []
    {
      var response := pending[0];
      var id := response.connectionId;
      var net := this.(pending := pending[1..], history := history.(taken := history.taken + 1));
      if !IsCurrent(id, response.generation) then net
      else
        var (sent, ok) := net.SendToClient(id, response.data, calls, ctlOk, limits);
        if !ok then sent.CloseConnection(id)
        else if !response.closeAfterSend then sent
        else sent.FinishWith(id)
    }

    /** `close_after_send`: close now if everything is out, else once the buffer has been flushed. */
    function FinishWith(id: nat): Net {
      if id !in connections then this
      else if connections[id].writeBuffer == "" then CloseConnection(id)
      else this.(connections := connections[id := connections[id].(closing := true)])
    }

    function HandleClose(): Net
      requires pendingCloses != []
    {
      var request := pendingCloses[0];
      var net := this.(pendingCloses := pendingCloses[1..]);
      if IsCurrent(request.connectionId, request.generation) then net.CloseConnection(request.connectionId) else net
    }

    /** EPOLLOUT on `fd`. */
    function FlushWriteBuffer(fd: int, calls: seq<SendCall>, ctlOk: bool): Net {
      var found := FindByFd(fd);
      if found.None? || connections[found.value].writeBuffer == "" then this
      else
        var id := found.value;
        var c := connections[id];
        var r := Sending(0, |c.writeBuffer|, calls);
        var net := this.(kernel := kernel.Take(fd, c.writeBuffer[..r.sent]));
        match r.status
        case SendWouldBlock => net.(connections := connections[id := c.(writeBuffer := c.writeBuffer[r.sent..])])
        case SendIoError => net.CloseConnection(id)
        case SendOk =>
          var flushed := net.(connections := connections[id := c.(writeBuffer := "")],
                              kernel := net.kernel.Watch(fd, false, ctlOk));
          if !ctlOk || c.closing then flushed.CloseConnection(id) else flushed
    }
  }

  ghost predicate Initial(net: Net) {
    && net.connections == map[] && net.byFd == map[] && net.nextId == net.nextGeneration == 1
    && net.responses == net.pending == [] && net.closes == net.pendingCloses == [] && net.work == []
    && net.kernel == Kernel(map[], map[], map[], 0)
    && net.history == History(map[], map[], map[], [], 0)
  }

  /** The atomic steps. Everything a step leaves to the kernel, to the clock or to the scheduler is an
      argument of it. `Drop` is a hang-up, a heartbeat timeout or a server stop reaching connection
      `id`. */
  datatype Step =
    | Accepted(fd: int, registered: bool, now: int)
    | Readable(fd: int, received: seq<RecvCall>, now: int, queued: bool)
    | Processed(b: nat, outbound: seq<Outbound>)
    | SwapResponses
    | Respond(calls: seq<SendCall>, ctlOk: bool)
    | SwapCloses
    | CloseRequested
    | Writable(fd: int, calls: seq<SendCall>, ctlOk: bool)
    | Drop(id: nat)

  /** What the environment keeps to: `accept4` returns a descriptor that is not open, and the chat
      service answers only to connection ids that have been given out. */
  predicate Enabled(net: Net, step: Step) {
    match step
    case Accepted(fd, _, _) => fd !in net.kernel.open
    case Processed(b, outbound) =>
      && b < |net.work| && net.work[b].packets != []
      && (forall i :: 0 <= i < |outbound| ==> 1 <= outbound[i].connectionId < net.nextId)
    case SwapResponses => net.pending == []
    case Respond(_, _) => net.pending != []
    case SwapCloses => net.pendingCloses == []
    case CloseRequested => net.pendingCloses != []
    case _ => true
  }

  function Apply(net: Net, step: Step, limits: Limits): Net
    requires Enabled(net, step)
  {
    match step
    case Accepted(fd, registered, now) => net.Accept(fd, registered, now)
    case Readable(fd, received, now, queued) => net.HandleClientRead(fd, received, now, queued, limits)
    case Processed(b, outbound) => net.ProcessPacket(b, outbound, limits)
    case SwapResponses => net.(pending := net.responses, responses := [])
    case Respond(calls, ctlOk) => net.HandleResponse(calls, ctlOk, limits)
    case SwapCloses => net.(pendingCloses := net.closes, closes := [])
    case CloseRequested => net.HandleClose()
    case Writable(fd, calls, ctlOk) => net.FlushWriteBuffer(fd, calls, ctlOk)
    case Drop(id) => net.CloseConnection(id)
  }

  ghost predicate Next(net: Net, step: Step, net': Net, limits: Limits) {
    Enabled(net, step) && net' == Apply(net, step, limits)
  }

  /** A run of the server: any interleaving of the workers with the reactor. */
  ghost predicate Run(states: seq<Net>, steps: seq<Step>, limits: Limits) {
    && |states| == |steps| + 1
    && Initial(states[0])
    && forall i :: 0 <= i < |steps| ==> Next(states[i], steps[i], states[i + 1], limits)
  }

  ghost predicate Reachable(net: Net, limits: Limits) {
    exists states, steps :: Run(states, steps, limits) && states[|steps|] == net
  }
}
