/** What becomes of the packets that were submitted to the thread pool. */
module ServerWork {
  import opened Wrappers
  import opened PacketCodec
  import opened PacketIo
  import opened ServerState
  import opened ServerInvariant

  /** All packets of the batches of connection `id`, handled and remaining ones, in order. */
  function Assigned(work: seq<Batch>, id: nat): seq<string> {
    if work == [] then []
    else
      var last := work[|work| - 1];
      Assigned(work[..|work| - 1], id) + if last.connectionId == id then last.handled + last.packets else []
  }

  /** The batches of each connection are, put together, what was submitted for it. */
  ghost predicate AllAssigned(net: Net) {
    forall id :: id in net.history.submitted ==> net.history.submitted[id] == Assigned(net.work, id)
  }

  lemma {:induction false} NoneAssigned(work: seq<Batch>, id: nat)
    requires forall i :: 0 <= i < |work| ==> work[i].connectionId != id
    ensures Assigned(work, id) == []
  {
    if work != [] {
      NoneAssigned(work[..|work| - 1], id);
    }
  }

  /** Handling a packet moves it within its batch. */
  lemma {:induction false} HandledStaysAssigned(work: seq<Batch>, b: nat, next: Batch, id: nat)
    requires b < |work| && next.connectionId == work[b].connectionId
    requires next.handled + next.packets == work[b].handled + work[b].packets
    ensures Assigned(work[b := next], id) == Assigned(work, id)
  {
    var last := |work| - 1;
    if b < last {
      HandledStaysAssigned(work[..last], b, next, id);
      assert work[b := next][..last] == work[..last][b := next];
    } else {
      assert work[b := next][..last] == work[..last];
    }
  }

  lemma ReadAssigns(net: Net, fd: int, calls: seq<RecvCall>, now: int, queued: bool, limits: Limits)
    requires AllAssigned(net) && Invariant(net, limits)
    ensures AllAssigned(net.HandleClientRead(fd, calls, now, queued, limits))
  {
    hide Invariant, Receive, Flowing;
    ReadCases(net, fd, calls, now, queued, limits);
    var found := net.FindByFd(fd);
    if found.Some? {
      var id := found.value;
      SubmittedAssigns(net, id, calls, now);
      CloseQueues(AfterRead(net, id, calls), id);
    }
  }

  lemma SubmittedAssigns(net: Net, id: nat, calls: seq<RecvCall>, now: int)
    requires AllAssigned(net) && id in net.connections
    ensures AllAssigned(AfterSubmit(net, id, calls, now)) && AllAssigned(AfterRead(net, id, calls))
  {
    hide Receive;
    var c := net.connections[id];
    var batch := Batch(id, c.generation, [], Receive(calls, c.readBuffer, MAX_PAYLOAD).packets);
    assert (net.work + [batch])[..|net.work|] == net.work;
    assert batch.handled + batch.packets == batch.packets;
  }

  lemma WorkAssigns(net: Net, b: nat, outbound: seq<Outbound>, limits: Limits)
    requires AllAssigned(net) && b < |net.work| && net.work[b].packets != []
    ensures AllAssigned(net.ProcessPacket(b, outbound, limits))
  {
    hide AllAssigned;
    var batch := net.work[b];
    var next := batch.(handled := batch.handled + [batch.packets[0]], packets := batch.packets[1..]);
    assert batch.packets == [batch.packets[0]] + batch.packets[1..];
    HandledAssigns(net, b, next);
    assert AllAssigned(net.(work := net.work[b := next]));
    SameAssigned(net.(work := net.work[b := next]), net.ProcessPacket(b, outbound, limits));
  }

  lemma HandledAssigns(net: Net, b: nat, next: Batch)
    requires AllAssigned(net) && b < |net.work| && next.connectionId == net.work[b].connectionId
    requires next.handled + next.packets == net.work[b].handled + net.work[b].packets
    ensures AllAssigned(net.(work := net.work[b := next]))
  {
    forall id | id in net.history.submitted ensures Assigned(net.work[b := next], id) == Assigned(net.work, id) {
      HandledStaysAssigned(net.work, b, next, id);
    }
  }

  lemma SameAssigned(net: Net, after: Net)
    requires AllAssigned(net) && after.work == net.work && after.history.submitted == net.history.submitted
    ensures AllAssigned(after)
  {
  }

  lemma AcceptAssigns(net: Net, fd: int, registered: bool, now: int, limits: Limits)
    requires AllAssigned(net) && Queued(net, limits)
    ensures AllAssigned(net.Accept(fd, registered, now))
  {
    assert forall i :: 0 <= i < |net.work| ==> Issued(net, net.work[i].connectionId, net.work[i].generation);
    NoneAssigned(net.work, net.nextId);
  }

  lemma StepAssigns(net: Net, step: Step, limits: Limits)
    requires AllAssigned(net) && Invariant(net, limits) && Enabled(net, step)
    ensures AllAssigned(Apply(net, step, limits))
  {
    hide AllAssigned, Net.HandleResponse, Net.HandleClientRead, Net.FlushWriteBuffer, Net.ProcessPacket, Net.Accept,
         Net.CloseConnection, Flowing, Indexed, Accounted, Queued;
    var after := Apply(net, step, limits);
    match step
    case Accepted(fd, registered, now) => AcceptAssigns(net, fd, registered, now, limits);
    case Readable(fd, received, now, queued) => ReadAssigns(net, fd, received, now, queued, limits);
    case Processed(b, outbound) => WorkAssigns(net, b, outbound, limits);
    case Respond(calls, ctlOk) => RespondQueues(net, calls, ctlOk, limits); SameAssigned(net, after);
    case Writable(fd, calls, ctlOk) => FlushLeavesQueues(net, fd, calls, ctlOk); SameAssigned(net, after);
    case CloseRequested =>
      var id := net.pendingCloses[0].connectionId;
      CloseQueues(net.(pendingCloses := net.pendingCloses[1..]), id);
      SameAssigned(net, after);
    case Drop(id) => CloseQueues(net, id); SameAssigned(net, after);
    case _ => SameAssigned(net, after);
  }

  lemma {:induction false} AlwaysAssigned(states: seq<Net>, steps: seq<Step>, limits: Limits, k: nat)
    requires Run(states, steps, limits) && k < |states|
    ensures AllAssigned(states[k])
  {
    hide Invariant, Apply, Enabled;
    if k > 0 {
      AlwaysAssigned(states, steps, limits, k - 1);
      Always(states, steps, limits, k - 1);
      assert Next(states[k - 1], steps[k - 1], states[k - 1 + 1], limits);
      StepAssigns(states[k - 1], steps[k - 1], limits);
    }
  }

  /** In every reachable state the packets submitted for a connection are, in order, those of its
      batches: each is in one batch, once, and has been handled or waits there, the handled ones being the
      first. */
  lemma PacketsAreHandledOnce(net: Net, limits: Limits, id: nat)
    requires Reachable(net, limits) && 1 <= id < net.nextId
    ensures id in net.history.submitted && net.history.submitted[id] == Assigned(net.work, id)
  {
    ReachableHolds(net, limits);
    assert Accounted(net, id);
    var states, steps :| Run(states, steps, limits) && states[|steps|] == net;
    AlwaysAssigned(states, steps, limits, |steps|);
  }
}
