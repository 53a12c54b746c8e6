/** The reactor's rounds: which steps a round of the event loop is made of, in which order, and what is
    true when it is over. */
module ServerRounds {
  import opened Wrappers
  import opened PacketCodec
  import opened PacketIo
  import opened ServerState
  import opened ServerInvariant
  import opened ServerTheorems
  import opened ServerOutcomes
  import opened TcpServer

  // ------------------------------------------------------------ what a drain achieves

  /** Connection `id` did not notice. */
  ghost predicate Spared(net: Net, after: Net, id: nat) {
    && (id in after.connections <==> id in net.connections)
    && (id in net.connections ==> after.connections[id] == net.connections[id])
    && (id in net.kernel.wire ==> id in after.kernel.wire && after.kernel.wire[id] == net.kernel.wire[id])
  }

  lemma CloseSpares(net: Net, id: nat)
    requires net.pendingCloses != [] && (net.pendingCloses[0].connectionId != id || id !in net.connections)
    ensures Spared(net, net.HandleClose(), id)
  {
  }

  lemma {:induction false} ClosesSpare(net: Net, id: nat)
    requires || id !in net.connections
             || forall i :: 0 <= i < |net.pendingCloses| ==> net.pendingCloses[i].connectionId != id
    ensures Spared(net, FinishCloses(net), id)
    decreases |net.pendingCloses|
  {
    hide Net.HandleClose;
    if net.pendingCloses != [] {
      CloseSpares(net, id);
      RestOfCloses(net);
      ClosesSpare(net.HandleClose(), id);
    }
  }

  lemma RestOfCloses(net: Net)
    requires net.pendingCloses != []
    ensures net.HandleClose().pendingCloses == net.pendingCloses[1..]
  {
  }

  /** Whoever is asked to close is closed. */
  lemma {:induction false} ClosesClose(net: Net, limits: Limits, i: nat)
    requires Invariant(net, limits) && i < |net.pendingCloses|
    ensures net.pendingCloses[i].connectionId !in FinishCloses(net).connections
    decreases |net.pendingCloses|
  {
    hide Invariant;
    var id := net.pendingCloses[i].connectionId;
    RestOfCloses(net);
    if i == 0 {
      HeadCloses(net, limits);
      ClosesSpare(net.HandleClose(), id);
    } else {
      StepKeeps(net, CloseRequested, limits);
      ClosesClose(net.HandleClose(), limits, i - 1);
    }
  }

  lemma HeadCloses(net: Net, limits: Limits)
    requires Invariant(net, limits) && net.pendingCloses != []
    ensures net.pendingCloses[0].connectionId !in net.HandleClose().connections
  {
    GenerationNeverDecides(net, limits);
  }

  lemma RespondSpares(net: Net, calls: seq<SendCall>, ctlOk: bool, limits: Limits, id: nat)
    requires Invariant(net, limits) && net.pending != []
    requires net.pending[0].connectionId != id || id !in net.connections
    ensures Spared(net, net.HandleResponse(calls, ctlOk, limits), id)
  {
    hide Net.SendToClient, Flowing, Accounted, Queued;
    var x := net.pending[0].connectionId;
    if x in net.connections {
      assert Wired(net, x);
      SendTouches(AfterTake(net), x, net.pending[0].data, calls, ctlOk, limits);
    } else {
      DroppedWhenClosed(net, calls, ctlOk, limits);
    }
  }

  ghost predicate NothingFor(responses: seq<Response>, id: nat) {
    forall i :: 0 <= i < |responses| ==> responses[i].connectionId != id
  }

  lemma {:induction false} ResponsesSpare(net: Net, kernel: nat -> Outlet, k: nat, limits: Limits, id: nat)
    requires Invariant(net, limits) && (id !in net.connections || NothingFor(net.pending, id))
    ensures Spared(net, FinishResponses(net, kernel, k, limits), id)
    decreases |net.pending|
  {
    hide Invariant, Net.HandleResponse;
    if net.pending != [] {
      PendingShrinks(net, kernel(k).calls, kernel(k).ctlOk, limits);
      RespondSpares(net, kernel(k).calls, kernel(k).ctlOk, limits, id);
      StepKeeps(net, Respond(kernel(k).calls, kernel(k).ctlOk), limits);
      ResponsesSpare(net.HandleResponse(kernel(k).calls, kernel(k).ctlOk, limits), kernel, k + 1, limits, id);
    }
  }

  /** A drain in its parts: close requests, then the responses queued before, then close requests. */
  lemma DrainParts(net: Net, kernel: nat -> Outlet, limits: Limits) 
    returns (closed: Net, swapped: Net, finished: Net)
    requires Invariant(net, limits) && net.pending == [] && net.pendingCloses == []
    ensures Invariant(closed, limits) && Invariant(swapped, limits) && Invariant(finished, limits)
    ensures closed == DrainCloses(net) && swapped == closed.(pending := net.responses, responses := [])
    ensures finished == FinishResponses(swapped, kernel, 0, limits) && finished.closes == []
    ensures DrainAll(net, kernel, limits) == DrainCloses(finished)
  {
    hide Invariant, FinishResponses, FinishCloses;
    closed := DrainCloses(net);
    swapped := closed.(pending := closed.responses, responses := []);
    finished := FinishResponses(swapped, kernel, 0, limits);
    StepKeeps(net, SwapCloses, limits);
    ClosesKeep(net.(pendingCloses := net.closes, closes := []), limits);
    FinishClosesEmpties(net.(pendingCloses := net.closes, closes := []));
    StepKeeps(closed, SwapResponses, limits);
    ResponsesKeep(swapped, kernel, 0, limits);
    FinishResponsesEmpties(swapped, kernel, 0, limits);
  }

  lemma {:induction false} ClosesKeep(net: Net, limits: Limits)
    requires Invariant(net, limits)
    ensures Invariant(FinishCloses(net), limits)
    decreases |net.pendingCloses|
  {
    hide Invariant, Net.HandleClose;
    if net.pendingCloses != [] {
      StepKeeps(net, CloseRequested, limits);
      RestOfCloses(net);
      ClosesKeep(net.HandleClose(), limits);
    }
  }

  lemma {:induction false} ResponsesKeep(net: Net, kernel: nat -> Outlet, k: nat, limits: Limits)
    requires Invariant(net, limits)
    ensures Invariant(FinishResponses(net, kernel, k, limits), limits)
    decreases |net.pending|
  {
    hide Invariant, Net.HandleResponse;
    if net.pending != [] {
      StepKeeps(net, Respond(kernel(k).calls, kernel(k).ctlOk), limits);
      PendingShrinks(net, kernel(k).calls, kernel(k).ctlOk, limits);
      ResponsesKeep(net.HandleResponse(kernel(k).calls, kernel(k).ctlOk, limits), kernel, k + 1, limits);
    }
  }

  ghost predicate AskedToClose(net: Net, id: nat) {
    exists i :: 0 <= i < |net.closes| && net.closes[i].connectionId == id
  }

  /** A drain, whatever the kernel does: afterwards the queues are empty and every response ever queued
      has been dealt with; a live connection has, on the wire or buffered, exactly all that was ever
      queued for it; a connection that was asked to close is gone and got no further byte; and one
      that no request and no response was for has not noticed. */
  lemma DrainServesAll(net: Net, kernel: nat -> Outlet, limits: Limits, id: nat)
    requires AtRest(net, limits) && 1 <= id < net.nextId
    ensures var after := DrainAll(net, kernel, limits);
            && after.responses == [] && after.closes == []
            && after.history.pushed == net.history.pushed && after.history.taken == |net.history.pushed|
            && id in net.kernel.wire && id in after.kernel.wire
            && (id in after.connections ==>
                  after.kernel.wire[id] + after.connections[id].writeBuffer ==
                  EncodeAll(DataFor(net.history.pushed, id)))
            && (AskedToClose(net, id) || id !in net.connections ==>
                  id !in after.connections && after.kernel.wire[id] == net.kernel.wire[id])
            && (!AskedToClose(net, id) && NothingFor(net.responses, id) ==> Spared(net, after, id))
  {
    hide DrainAll, Invariant, EncodeAll, DataFor, Reachable;
    var after := DrainAll(net, kernel, limits);
    ReachableHolds(net, limits);
    DrainRuns(net, kernel, limits);
    DrainEmpties(net, kernel, limits);
    HandoffIsExact(after, limits);
    DrainPushesNothing(net, kernel, limits);
    OutputRefinement(net, limits, id);
    OutputRefinement(after, limits, id);
    assert after.history.pushed[..|after.history.pushed|] == after.history.pushed;
    assert after.history.pushed[..after.history.taken] + [] + [] == after.history.pushed[..after.history.taken];
    DrainConcerns(net, kernel, limits, id);
  }

  /** The socket of connection `id` got nothing. */
  ghost predicate SameWire(net: Net, after: Net, id: nat) {
    id in net.kernel.wire ==> id in after.kernel.wire && after.kernel.wire[id] == net.kernel.wire[id]
  }

  lemma DrainConcerns(net: Net, kernel: nat -> Outlet, limits: Limits, id: nat)
    requires Invariant(net, limits) && net.pending == [] && net.pendingCloses == []
    ensures AskedToClose(net, id) || id !in net.connections ==>
              var after := DrainAll(net, kernel, limits); id !in after.connections && SameWire(net, after, id)
    ensures !AskedToClose(net, id) && NothingFor(net.responses, id) ==> Spared(net, DrainAll(net, kernel, limits), id)
  {
    hide Invariant, FinishCloses, FinishResponses, DrainAll;
    var closed, swapped, finished := DrainParts(net, kernel, limits);
    var asked := net.(pendingCloses := net.closes, closes := []);
    assert Invariant(asked, limits) by { StepKeeps(net, SwapCloses, limits); }
    NoMoreCloses(finished);
    ClosesKeepWire(asked);
    if AskedToClose(net, id) {
      var i :| 0 <= i < |net.closes| && net.closes[i].connectionId == id;
      ClosesClose(asked, limits, i);
    } else {
      ClosesSpare(asked, id);
    }
    if id !in swapped.connections || NothingFor(net.responses, id) {
      ResponsesSpare(swapped, kernel, 0, limits, id);
    }
  }

  lemma NoMoreCloses(net: Net)
    requires net.closes == []
    ensures DrainCloses(net) == net.(pendingCloses := [])
  {
  }

  lemma {:induction false} ClosesKeepWire(net: Net)
    ensures FinishCloses(net).kernel.wire == net.kernel.wire
    decreases |net.pendingCloses|
  {
    if net.pendingCloses != [] {
      ClosesKeepWire(net.HandleClose());
    }
  }

  lemma {:induction false} ClosesPushNothing(net: Net)
    ensures FinishCloses(net).history == net.history && FinishCloses(net).nextId == net.nextId
    decreases |net.pendingCloses|
  {
    if net.pendingCloses != [] {
      ClosesPushNothing(net.HandleClose());
    }
  }

  lemma {:induction false} ResponsesPushNothing(net: Net, kernel: nat -> Outlet, k: nat, limits: Limits)
    ensures FinishResponses(net, kernel, k, limits).history.pushed == net.history.pushed
    ensures FinishResponses(net, kernel, k, limits).nextId == net.nextId
    decreases |net.pending|
  {
    hide Net.HandleResponse;
    if net.pending != [] {
      RespondQueues(net, kernel(k).calls, kernel(k).ctlOk, limits);
      ResponsesPushNothing(net.HandleResponse(kernel(k).calls, kernel(k).ctlOk, limits), kernel, k + 1, limits);
    }
  }

  lemma DrainPushesNothing(net: Net, kernel: nat -> Outlet, limits: Limits)
    ensures DrainAll(net, kernel, limits).history.pushed == net.history.pushed
    ensures DrainAll(net, kernel, limits).nextId == net.nextId
  {
    hide FinishCloses, FinishResponses;
    var closed := DrainCloses(net);
    var swapped := closed.(pending := closed.responses, responses := []);
    var finished := FinishResponses(swapped, kernel, 0, limits);
    ClosesPushNothing(net.(pendingCloses := net.closes, closes := []));
    ResponsesPushNothing(swapped, kernel, 0, limits);
    ClosesPushNothing(finished.(pendingCloses := finished.closes, closes := []));
  }

  // ------------------------------------------------------------ when the kernel takes everything

  /** The sockets have room for every frame. */
  ghost predicate TakesAll(kernel: nat -> Outlet) {
    forall k: nat, size: nat :: size <= HEADER_SIZE + MAX_PAYLOAD ==> Sending(0, size, kernel(k).calls).status.SendOk?
  }

  /** A response that leaves its connection open when it goes out. */
  predicate LeavesOpen(response: Response) {
    Encodable(response.data) && !response.closeAfterSend
  }

  ghost predicate AllLeaveOpen(responses: seq<Response>, id: nat) {
    forall i :: 0 <= i < |responses| && responses[i].connectionId == id ==> LeavesOpen(responses[i])
  }

  lemma RespondWithRoom(net: Net, outlet: Outlet, limits: Limits, id: nat)
    requires Invariant(net, limits) && net.pending != [] && net.pending[0].connectionId == id
    requires id in net.connections && net.connections[id].writeBuffer == ""
    requires forall size: nat :: size <= HEADER_SIZE + MAX_PAYLOAD ==> Sending(0, size, outlet.calls).status.SendOk?
    ensures var after := net.HandleResponse(outlet.calls, outlet.ctlOk, limits);
            && (id in after.connections <==> LeavesOpen(net.pending[0]))
            && (id in after.connections ==> after.connections[id].writeBuffer == "")
  {
    hide Invariant, Frame, Net.HandleResponse, Sending;
    var response := net.pending[0];
    GenerationNeverDecides(net, limits);
    ResponseCloses(net, outlet.calls, outlet.ctlOk, limits);
    FrameSizes(response.data);
    if Encodable(response.data) {
      assert Sending(0, HEADER_SIZE + |response.data|, outlet.calls).status.SendOk?;
      ResponseOutcome(net, id, outlet.calls, outlet.ctlOk, limits);
    }
  }

  lemma {:induction false} ResponsesWithRoom(net: Net, kernel: nat -> Outlet, k: nat, limits: Limits, id: nat)
    requires Invariant(net, limits) && TakesAll(kernel)
    requires id in net.connections && net.connections[id].writeBuffer == ""
    ensures var after := FinishResponses(net, kernel, k, limits);
            && (id in after.connections <==> AllLeaveOpen(net.pending, id))
            && (id in after.connections ==> after.connections[id].writeBuffer == "")
    decreases |net.pending|
  {
    hide Invariant, Net.HandleResponse, Sending, LeavesOpen;
    if net.pending != [] {
      var next := net.HandleResponse(kernel(k).calls, kernel(k).ctlOk, limits);
      PendingShrinks(net, kernel(k).calls, kernel(k).ctlOk, limits);
      StepKeeps(net, Respond(kernel(k).calls, kernel(k).ctlOk), limits);
      if net.pending[0].connectionId == id {
        RespondWithRoom(net, kernel(k), limits, id);
      } else {
        RespondSpares(net, kernel(k).calls, kernel(k).ctlOk, limits, id);
      }
      FirstOrRest(net.pending, id);
      if id in next.connections {
        ResponsesWithRoom(next, kernel, k + 1, limits, id);
      } else {
        ResponsesSpare(next, kernel, k + 1, limits, id);
      }
    }
  }

  lemma FirstOrRest(responses: seq<Response>, id: nat)
    requires responses != []
    ensures AllLeaveOpen(responses, id) <==>
            (responses[0].connectionId == id ==> LeavesOpen(responses[0])) && AllLeaveOpen(responses[1..], id)
  {
    hide LeavesOpen;
    if AllLeaveOpen(responses[1..], id) {
      forall i | 1 <= i < |responses| && responses[i].connectionId == id ensures LeavesOpen(responses[i]) {
        assert responses[1..][i - 1] == responses[i];
      }
    }
  }

  /** Delivery. When the sockets have room, a drain puts every response ever queued for a connection
      without unsent bytes on the wire, and leaves the connection open exactly when nobody asked to
      close it and each of its responses can be framed and does not ask for it. */
  lemma DrainDelivers(net: Net, kernel: nat -> Outlet, limits: Limits, id: nat)
    requires AtRest(net, limits) && TakesAll(kernel)
    requires id in net.connections && net.connections[id].writeBuffer == ""
    ensures var after := DrainAll(net, kernel, limits);
            && (id in after.connections <==> !AskedToClose(net, id) && AllLeaveOpen(net.responses, id))
            && (id in after.connections ==>
                  id in after.kernel.wire && after.kernel.wire[id] == EncodeAll(DataFor(net.history.pushed, id)))
  {
    hide Invariant, Sending, DrainAll, FinishCloses, FinishResponses, EncodeAll, DataFor, TakesAll,
         AllLeaveOpen, Reachable;
    var after := DrainAll(net, kernel, limits);
    ReachableHolds(net, limits);
    assert 1 <= id < net.nextId by { IsIssued(net, limits, id); }
    DrainServesAll(net, kernel, limits, id);
    if !AskedToClose(net, id) {
      var closed, swapped, finished := DrainParts(net, kernel, limits);
      NoMoreCloses(finished);
      ClosesSpare(net.(pendingCloses := net.closes, closes := []), id);
      ResponsesWithRoom(swapped, kernel, 0, limits, id);
    }
    if id in after.connections {
      assert after.kernel.wire[id] + "" == after.kernel.wire[id];
    }
  }

  lemma IsIssued(net: Net, limits: Limits, id: nat)
    requires Invariant(net, limits) && id in net.connections
    ensures 1 <= id < net.nextId
  {
    assert Wired(net, id);
  }

  // ------------------------------------------------------------ the steps of a round

  /** Performing `steps` one after the other leads from `net` to `after`. */
  ghost predicate Performs(net: Net, steps: seq<Step>, limits: Limits, after: Net)
    decreases |steps|
  {
    if steps == [] then after == net
    else Enabled(net, steps[0]) && Performs(Apply(net, steps[0], limits), steps[1..], limits, after)
  }

  lemma {:induction false} PerformsBoth(
    net: Net, first: seq<Step>, middle: Net, second: seq<Step>, after: Net, limits: Limits)
    requires Performs(net, first, limits, middle) && Performs(middle, second, limits, after)
    ensures Performs(net, first + second, limits, after)
    decreases |first|
  {
    hide Apply, Enabled;
    if first == [] {
      assert first + second == second;
    } else {
      PerformsBoth(Apply(net, first[0], limits), first[1..], middle, second, after, limits);
      assert (first + second)[1..] == first[1..] + second;
    }
  }

  lemma PerformsOne(net: Net, step: Step, limits: Limits)
    requires Enabled(net, step)
    ensures Performs(net, [step], limits, Apply(net, step, limits))
  {
    hide Apply, Enabled;
    assert Performs(Apply(net, step, limits), [step][1..], limits, Apply(net, step, limits));
  }

  /** The next `n` responses, from the k-th on. */
  function RespondSteps(kernel: nat -> Outlet, k: nat, n: nat): seq<Step>
    decreases n
  {
    if n == 0 then [] else [Respond(kernel(k).calls, kernel(k).ctlOk)] + RespondSteps(kernel, k + 1, n - 1)
  }

  /** Serving `closes` close requests, then `responses` responses, then any close requests of these. */
  function DrainSteps(closes: nat, responses: nat, kernel: nat -> Outlet): seq<Step> {
    [SwapCloses] + seq(closes, i => CloseRequested) +
    [SwapResponses] + RespondSteps(kernel, 0, responses) + [SwapCloses]
  }

  lemma {:induction false} ClosesArePerformed(net: Net, limits: Limits)
    ensures Performs(net, seq(|net.pendingCloses|, i => CloseRequested), limits, FinishCloses(net))
    decreases |net.pendingCloses|
  {
    hide Net.HandleClose;
    if net.pendingCloses != [] {
      RestOfCloses(net);
      ClosesArePerformed(net.HandleClose(), limits);
      assert seq(|net.pendingCloses|, i => CloseRequested)[1..] == seq(|net.pendingCloses| - 1, i => CloseRequested);
    }
  }

  lemma {:induction false} ResponsesArePerformed(net: Net, kernel: nat -> Outlet, k: nat, limits: Limits)
    ensures Performs(net, RespondSteps(kernel, k, |net.pending|), limits, FinishResponses(net, kernel, k, limits))
    decreases |net.pending|
  {
    hide Net.HandleResponse;
    if net.pending != [] {
      PendingShrinks(net, kernel(k).calls, kernel(k).ctlOk, limits);
      ResponsesArePerformed(net.HandleResponse(kernel(k).calls, kernel(k).ctlOk, limits), kernel, k + 1, limits);
      var n := |net.pending|;
      assert RespondSteps(kernel, k, n)[1..] == RespondSteps(kernel, k + 1, n - 1);
    }
  }

  lemma DrainIsPerformed(net: Net, kernel: nat -> Outlet, limits: Limits)
    requires Invariant(net, limits) && net.pending == [] && net.pendingCloses == []
    ensures Performs(net, DrainSteps(|net.closes|, |net.responses|, kernel), limits, DrainAll(net, kernel, limits))
  {
    hide Invariant, FinishCloses, FinishResponses, Performs;
    var asked := net.(pendingCloses := net.closes, closes := []);
    var closed, swapped, finished := DrainParts(net, kernel, limits);
    FinishClosesEmpties(asked);
    FinishResponsesEmpties(swapped, kernel, 0, limits);
    var serve := seq(|net.closes|, i => CloseRequested);
    var send := RespondSteps(kernel, 0, |net.responses|);
    PerformsOne(net, SwapCloses, limits);
    ClosesArePerformed(asked, limits);
    PerformsBoth(net, [SwapCloses], asked, serve, closed, limits);
    PerformsOne(closed, SwapResponses, limits);
    PerformsBoth(net, [SwapCloses] + serve, closed, [SwapResponses], swapped, limits);
    ResponsesArePerformed(swapped, kernel, 0, limits);
    PerformsBoth(net, [SwapCloses] + serve + [SwapResponses], swapped, send, finished, limits);
    PerformsOne(finished, SwapCloses, limits);
    NoMoreCloses(finished);
    PerformsBoth(net, [SwapCloses] + serve + [SwapResponses] + send, finished, [SwapCloses],
                 DrainAll(net, kernel, limits), limits);
  }

  /** Until there are no more clients. */
  function AcceptSteps(calls: seq<AcceptCall>): seq<Step> {
    if calls == [] || calls[0].NoMoreClients? then []
    else [Accepted(calls[0].fd, calls[0].registered, calls[0].now)] + AcceptSteps(calls[1..])
  }

  /** The steps an event is made of: input before output; a hang-up ends the connection that has the
      descriptor now. */
  function EventSteps(net: Net, event: Event): seq<Step> {
    match event
    case NewClients(calls) => AcceptSteps(calls)
    case Wake(kernel) => DrainSteps(|net.closes|, |net.responses|, kernel)
    case HangUp(fd) => if fd in net.byFd then [Drop(net.byFd[fd])] else []
    case Io(fd, readable, writable) =>
      (if readable.Some? then
         [Readable(fd, readable.value.calls, readable.value.now, readable.value.queued)]
       else []) +
      (if writable.Some? then [Writable(fd, writable.value.calls, writable.value.ctlOk)] else [])
  }

  lemma {:induction false} AcceptsArePerformed(net: Net, calls: seq<AcceptCall>, limits: Limits)
    requires FreshDescriptors(net, calls)
    ensures Performs(net, AcceptSteps(calls), limits, AcceptAll(net, calls))
    decreases |calls|
  {
    if calls != [] && calls[0].Client? {
      AcceptsArePerformed(net.Accept(calls[0].fd, calls[0].registered, calls[0].now), calls[1..], limits);
      assert AcceptSteps(calls)[1..] == AcceptSteps(calls[1..]);
    }
  }

  lemma EventIsPerformed(net: Net, event: Event, limits: Limits)
    requires AtRest(net, limits) && EventOk(net, event)
    ensures Performs(net, EventSteps(net, event), limits, ServeEvent(net, event, limits))
  {
    hide Invariant, DrainAll, AcceptAll, Reachable, DrainSteps, AcceptSteps, Net.HandleClientRead, Net.FlushWriteBuffer,
         Net.CloseConnection;
    match event
    case NewClients(calls) => AcceptsArePerformed(net, calls, limits);
    case Wake(kernel) => ReachableHolds(net, limits); DrainIsPerformed(net, kernel, limits);
    case HangUp(fd) =>
      if fd in net.byFd {
        PerformsOne(net, Drop(net.byFd[fd]), limits);
      } else {
        UnknownIsClosed(net, fd, limits);
      }
    case Io(fd, readable, writable) => IoIsPerformed(net, fd, readable, writable, limits);
  }

  lemma IoIsPerformed(net: Net, fd: int, readable: Option<Arrival>, writable: Option<Outlet>, limits: Limits)
    ensures Performs(net, EventSteps(net, Io(fd, readable, writable)), limits,
                     ServeEvent(net, Io(fd, readable, writable), limits))
  {
    hide Performs, Net.HandleClientRead, Net.FlushWriteBuffer;
    var read, input := net, [];
    assert Performs(net, [], limits, net) by { NothingPerformed(net, limits); }
    if readable.Some? {
      var step := Readable(fd, readable.value.calls, readable.value.now, readable.value.queued);
      read, input := Apply(net, step, limits), [step];
      PerformsOne(net, step, limits);
    }
    if writable.Some? {
      var step := Writable(fd, writable.value.calls, writable.value.ctlOk);
      PerformsOne(read, step, limits);
      PerformsBoth(net, input, read, [step], Apply(read, step, limits), limits);
      assert [] + [step] == [step];
    } else {
      assert input + [] == input;
    }
  }

  lemma NothingPerformed(net: Net, limits: Limits)
    ensures Performs(net, [], limits, net)
  {
  }

  /** Serving the events in order. */
  ghost predicate Serves(net: Net, events: seq<Event>, limits: Limits, after: Net)
    decreases |events|
  {
    if events == [] then after == net
    else exists next: Net ::
      Performs(net, EventSteps(net, events[0]), limits, next) && Serves(next, events[1..], limits, after)
  }

  lemma {:induction false} EventsAreServed(net: Net, events: seq<Event>, limits: Limits)
    requires AtRest(net, limits) && EventsOk(net, events, limits)
    ensures Serves(net, events, limits, ServeEvents(net, events, limits))
    decreases |events|
  {
    hide AtRest, EventOk, Performs, EventSteps, ServeEvent;
    if events != [] {
      EventIsPerformed(net, events[0], limits);
      EventRuns(net, events[0], limits);
      EventsAreServed(ServeEvent(net, events[0], limits), events[1..], limits);
    }
  }

  /** `ids` lists a set, each member once. */
  ghost predicate Enumerates(ids: seq<nat>, members: set<nat>) {
    (forall i, j :: 0 <= i < j < |ids| ==> ids[i] != ids[j]) && forall id :: id in ids <==> id in members
  }

  function DropSteps(ids: seq<nat>): seq<Step> {
    seq(|ids|, i requires 0 <= i < |ids| => Drop(ids[i]))
  }

  lemma {:induction false} DropsArePerformed(net: Net, members: set<nat>, limits: Limits) returns (ids: seq<nat>)
    ensures Enumerates(ids, members) && Performs(net, DropSteps(ids), limits, CloseEach(net, members))
  {
    hide CloseEach, Net.CloseConnection;
    if members == {} {
      ids := [];
      CloseNone(net);
    } else {
      var id :| id in members;
      var front := DropsArePerformed(net, members - {id}, limits);
      ids := front + [id];
      CloseOneMore(net, members - {id}, id);
      assert members - {id} + {id} == members;
      PerformsOne(CloseEach(net, members - {id}), Drop(id), limits);
      PerformsBoth(net, DropSteps(front), CloseEach(net, members - {id}), [Drop(id)], CloseEach(net, members), limits);
      assert DropSteps(ids) == DropSteps(front) + [Drop(id)];
      assert forall x :: x in ids <==> x in front || x == id;
    }
  }

  /** What one return of `epoll_wait` leads to: without events exactly the connections that were silent too
      long are dropped, otherwise the events are served in order; then comes a drain. */
  ghost predicate Turns(net: Net, round: Round, limits: Limits, after: Net) {
    exists middle: Net ::
      && (if round.Idle? then Drops(net, Silent(net, round.now, round.timeout), limits, middle)
          else Serves(net, round.events, limits, middle))
      && Performs(middle, DrainSteps(|middle.closes|, |middle.responses|, round.kernel), limits, after)
  }

  /** Dropping the connections of a set, each once, in some order. */
  ghost predicate Drops(net: Net, members: set<nat>, limits: Limits, after: Net) {
    exists ids: seq<nat> :: Enumerates(ids, members) && Performs(net, DropSteps(ids), limits, after)
  }

  ghost function Silent(net: Net, now: int, timeout: int): set<nat> {
    set id | id in net.connections && net.connections[id].lastActive < now - timeout
  }

  /** A round performs exactly the steps its events stand for, in order, and then those of a drain. */
  lemma RoundIsPerformed(net: Net, round: Round, limits: Limits)
    requires AtRest(net, limits) && RoundOk(net, round, limits)
    ensures Turns(net, round, limits, ServeRound(net, round, limits))
  {
    hide Invariant, Performs, DrainAll, DrainSteps, CloseEach, DropSteps, ServeEvents, Serves, Reachable, Enumerates,
         Silent, TimedOut;
    match round
    case Idle(now, timeout, kernel) =>
      var middle := CloseEach(net, TimedOut(net, now, timeout));
      SilentTimeOut(net, now, timeout);
      var ids := DropsArePerformed(net, TimedOut(net, now, timeout), limits);
      assert middle.pending == [] && middle.pendingCloses == [] by { CloseEachRests(net, TimedOut(net, now, timeout)); }
      CloseEachRuns(net, TimedOut(net, now, timeout), limits);
      ReachableHolds(middle, limits);
      DrainIsPerformed(middle, kernel, limits);
    case Ready(events, kernel) =>
      var middle := ServeEvents(net, events, limits);
      EventsAreServed(net, events, limits);
      EventsRun(net, events, limits);
      ReachableHolds(middle, limits);
      DrainIsPerformed(middle, kernel, limits);
  }

  lemma SilentTimeOut(net: Net, now: int, timeout: int)
    ensures TimedOut(net, now, timeout) == Silent(net, now, timeout)
  {
  }

  lemma CloseEachRests(net: Net, ids: set<nat>)
    ensures CloseEach(net, ids).pending == net.pending && CloseEach(net, ids).pendingCloses == net.pendingCloses
  {
  }

  /** Heartbeats, over runs: of the live connections exactly those are closed that were last heard from,
      by being accepted or by sending packets, longer than the timeout ago. */
  lemma HeartbeatsCloseTheSilent(
    states: seq<Net>, steps: seq<Step>, limits: Limits, now: int, timeout: int, id: nat)
    requires Run(states, steps, limits) && id in states[|steps|].connections
    ensures var net := states[|steps|];
            var after := CloseEach(net, TimedOut(net, now, timeout));
            && (id in after.connections <==> now - LastHeard(states, steps, |steps|, id) <= timeout)
            && (id in after.connections ==> after.connections[id] == net.connections[id])
  {
    hide Run, LastHeard;
    assert |steps| < |states| by { Lengths(states, steps, limits); }
    TimeIsLastHeard(states, steps, limits, |steps|, id);
  }

  lemma Lengths(states: seq<Net>, steps: seq<Step>, limits: Limits)
    requires Run(states, steps, limits)
    ensures |states| == |steps| + 1
  {
  }
}
