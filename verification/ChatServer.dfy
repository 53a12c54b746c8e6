/** The whole server: the network state machine with the chat machine behind its thread pool. */
module ChatServer {
  import opened Wrappers
  import opened Protocol
  import opened ServerState
  import opened ServerInvariant
  import opened ServerTheorems
  import opened PacketCodec
  import opened PacketIo
  import C = Chat
  import ChatService
  import T = ChatTheorems
  import opened ChatNumbers
  import Commands
  import Json

  datatype System = System(net: Net, chat: C.Chat)

  /** `Work` is a worker running the first packet of batch `b` through the chat service. */
  datatype Action = Network(step: Step) | Work(b: nat, env: C.Environment)

  ghost predicate Possible(s: System, action: Action) {
    match action
    case Network(step) => !step.Processed? && Enabled(s.net, step)
    case Work(b, _) => b < |s.net.work| && s.net.work[b].packets != []
  }

  /** The connection a step of the network may close. */
  function Subject(net: Net, step: Step): Option<nat>
    requires Enabled(net, step)
  {
    match step
    case Readable(fd, _, _, _) => net.FindByFd(fd)
    case Writable(fd, _, _) => net.FindByFd(fd)
    case Respond(_, _) => Some(net.pending[0].connectionId)
    case CloseRequested => Some(net.pendingCloses[0].connectionId)
    case Drop(id) => Some(id)
    case _ => None
  }

  /** Closing a connection tells the chat service. */
  ghost function AfterClose(s: System, step: Step, limits: Limits): C.Chat
    requires Enabled(s.net, step)
  {
    var subject := Subject(s.net, step);
    if subject.Some? && subject.value in s.net.connections && subject.value !in Apply(s.net, step, limits).connections then
      C.HandleDisconnect(s.chat, subject.value)
    else s.chat
  }

  ghost function Worked(s: System, b: nat, env: C.Environment): (C.Chat, seq<Outbound>)
    requires b < |s.net.work| && s.net.work[b].packets != []
  {
    var (chat, out) := C.HandleLine(s.chat, s.net.work[b].connectionId, s.net.work[b].packets[0], env);
    (chat, ChatService.Rendered(out))
  }

  ghost function Act(s: System, action: Action, limits: Limits): System
    requires Possible(s, action)
  {
    match action
    case Network(step) => System(Apply(s.net, step, limits), AfterClose(s, step, limits))
    case Work(b, env) =>
      var (chat, out) := Worked(s, b, env);
      System(s.net.ProcessPacket(b, out, limits), chat)
  }

  /** The step of the network machine that an action is. */
  ghost function AsStep(s: System, action: Action): Step
    requires Possible(s, action)
  {
    match action
    case Network(step) => step
    case Work(b, env) => Processed(b, Worked(s, b, env).1)
  }

  /** The payload is a formatted reply and, if the numbers are `small`, parses to its intended fields. */
  ghost predicate IsReply(payload: string, small: bool) {
    exists r :: payload == Format(r) && (small ==> Json.ParseObject(payload) == Ok(Intended(r)))
  }

  /** Every queued payload is a reply. */
  ghost predicate Replies(pushed: seq<Response>, small: bool) {
    forall i :: 0 <= i < |pushed| ==> IsReply(pushed[i].data, small)
  }

  ghost predicate Holds(s: System, limits: Limits) {
    && Invariant(s.net, limits) && T.Sound(s.chat, s.net.nextId)
    && Replies(s.net.history.pushed, Small(s.chat))
  }

  ghost predicate Run(states: seq<System>, actions: seq<Action>, limits: Limits) {
    && |states| == |actions| + 1
    && ServerState.Initial(states[0].net) && states[0].chat == C.EMPTY
    && forall i :: 0 <= i < |actions| ==>
         Possible(states[i], actions[i]) && states[i + 1] == Act(states[i], actions[i], limits)
  }

  lemma RenderedTo(out: seq<C.Delivery>, ids: nat, small: bool)
    requires T.Addressable(out, ids) && (small ==> forall d :: d in out ==> Fits(d.reply))
    ensures var rendered := ChatService.Rendered(out);
            forall i :: 0 <= i < |rendered| ==>
              1 <= rendered[i].connectionId < ids && IsReply(rendered[i].data, small)
  {
    hide Format, Fits;
    var rendered := ChatService.Rendered(out);
    forall i | 0 <= i < |out| ensures 1 <= out[i].connectionId < ids && IsReply(rendered[i].data, small) {
      assert out[i] in out;
      assert rendered[i].data == Format(out[i].reply);
      if small {
        ReplyRoundTrip(out[i].reply);
      }
    }
  }

  /** A worker's answers meet what the network assumes of them: they are addressed to connection ids that
      were given out. */
  lemma WorkIsEnabled(s: System, b: nat, env: C.Environment, limits: Limits)
    requires Holds(s, limits) && Possible(s, Work(b, env))
    ensures Enabled(s.net, Processed(b, Worked(s, b, env).1))
    ensures var (chat, out) := Worked(s, b, env);
            && T.Sound(chat, s.net.nextId)
            && (Small(chat) ==> Small(s.chat))
            && forall i :: 0 <= i < |out| ==> IsReply(out[i].data, Small(chat))
  {
    hide IsReply, C.HandleLine, T.Sound, Indexed, Flowing, Accounted, Fits, Commands.ParseClientCommand;
    assert Queued(s.net, limits);
    var batch := s.net.work[b];
    assert Issued(s.net, batch.connectionId, batch.generation);
    var chat := Worked(s, b, env).0;
    T.AnswersAreAddressable(s.chat, batch.connectionId, batch.packets[0], env, s.net.nextId);
    T.LineSound(s.chat, batch.connectionId, batch.packets[0], env, s.net.nextId);
    CountersGrow(s.chat, batch.connectionId, batch.packets[0], env);
    if Small(chat) {
      RepliesFit(s.chat, batch.connectionId, batch.packets[0], env, s.net.nextId);
    }
    RenderedTo(C.HandleLine(s.chat, batch.connectionId, batch.packets[0], env).1, s.net.nextId, Small(chat));
  }

  /** What a worker's step comes to, end to end: the chat service's answers to the packet enter the queue
      together, each for the connection it is meant for, readable as what it says, and asking for a
      close exactly if it does; or none does, and the sender's connection is asked to close. */
  lemma AnswersAreQueued(s: System, b: nat, env: C.Environment, limits: Limits)
    requires Holds(s, limits) && Possible(s, Work(b, env))
    ensures var c, queue := s.net.work[b].connectionId, s.net.responses;
            var (chat, out) := C.HandleLine(s.chat, c, s.net.work[b].packets[0], env);
            var after := Act(s, Work(b, env), limits);
            && after.chat == chat
            && (if |queue| + |out| <= limits.maxResponses then
                  && |after.net.responses| == |queue| + |out| && queue <= after.net.responses
                  && after.net.closes == s.net.closes
                  && forall i :: 0 <= i < |out| ==>
                       var response := after.net.responses[|queue| + i];
                       && response.connectionId == out[i].connectionId && response.closeAfterSend == out[i].closing
                       && (Small(chat) ==> Json.ParseObject(response.data) == Ok(Intended(out[i].reply)))
                else
                  after.net.responses == queue && after.net.closes == s.net.closes + [CloseRequest(c, c)])
  {
    hide C.HandleLine, Invariant, T.Sound, Replies, Net.ProcessPacket, Format, Fits, Small, IsReply;
    var batch := s.net.work[b];
    var (chat, out) := C.HandleLine(s.chat, batch.connectionId, batch.packets[0], env);
    var rendered := Worked(s, b, env).1;
    WorkIsEnabled(s, b, env, limits);
    AllOrNothing(s.net, b, rendered, limits);
    assert |rendered| == |out| && forall i :: 0 <= i < |out| ==>
             rendered[i] == Outbound(out[i].connectionId, Format(out[i].reply), out[i].closing);
    if Small(chat) {
      assert 1 <= batch.connectionId < s.net.nextId by { BatchIsIssued(s.net, limits, b); }
      RepliesFit(s.chat, batch.connectionId, batch.packets[0], env, s.net.nextId);
      forall i | 0 <= i < |out| ensures Json.ParseObject(Format(out[i].reply)) == Ok(Intended(out[i].reply)) {
        assert out[i] in out;
        ReplyRoundTrip(out[i].reply);
      }
    }
  }

  lemma BatchIsIssued(net: Net, limits: Limits, b: nat)
    requires Invariant(net, limits) && b < |net.work|
    ensures 1 <= net.work[b].connectionId < net.nextId
  {
    assert Issued(net, net.work[b].connectionId, net.work[b].generation);
  }

  lemma PushedByRead(net: Net, fd: int, calls: seq<RecvCall>, now: int, queued: bool, limits: Limits)
    ensures var after := net.HandleClientRead(fd, calls, now, queued, limits);
            after.history.pushed == net.history.pushed && after.nextId == net.nextId
  {
    hide Receive, ReadAll;
  }

  lemma PushedByStep(net: Net, step: Step, limits: Limits)
    requires Enabled(net, step) && !step.Processed?
    ensures Apply(net, step, limits).history.pushed == net.history.pushed
    ensures Apply(net, step, limits).nextId == (if step.Accepted? then net.nextId + 1 else net.nextId)
  {
    hide Net.HandleResponse, Net.HandleClientRead, Net.FlushWriteBuffer;
    match step
    case Respond(calls, ctlOk) => RespondQueues(net, calls, ctlOk, limits);
    case Readable(fd, received, now, queued) => PushedByRead(net, fd, received, now, queued, limits);
    case Writable(fd, calls, ctlOk) => FlushLeavesQueues(net, fd, calls, ctlOk);
    case _ =>
  }

  lemma PushedByWork(net: Net, b: nat, outbound: seq<Outbound>, limits: Limits, small: bool)
    requires b < |net.work| && net.work[b].packets != []
    requires Replies(net.history.pushed, small) && forall i :: 0 <= i < |outbound| ==> IsReply(outbound[i].data, small)
    ensures Replies(net.ProcessPacket(b, outbound, limits).history.pushed, small)
    ensures net.ProcessPacket(b, outbound, limits).nextId == net.nextId
  {
    hide IsReply;
    var batch := net.work[b];
    var entries := QueueEntries(outbound, batch.connectionId, batch.generation);
    assert forall i :: 0 <= i < |entries| ==> entries[i].data == outbound[i].data;
  }

  lemma FewerSmall(pushed: seq<Response>, small: bool, small': bool)
    requires Replies(pushed, small) && (small' ==> small)
    ensures Replies(pushed, small')
  {
  }

  lemma ActKeeps(s: System, action: Action, limits: Limits)
    requires Holds(s, limits) && Possible(s, action)
    ensures Enabled(s.net, AsStep(s, action)) && Act(s, action, limits).net == Apply(s.net, AsStep(s, action), limits)
    ensures Holds(Act(s, action, limits), limits)
  {
    hide Invariant, T.Sound, IsReply, C.HandleLine, Net.ProcessPacket, Small;
    match action
    case Network(step) =>
      StepKeeps(s.net, step, limits);
      PushedByStep(s.net, step, limits);
      ClosesSoundly(s, step, limits);
    case Work(b, env) =>
      WorkIsEnabled(s, b, env, limits);
      StepKeeps(s.net, Processed(b, Worked(s, b, env).1), limits);
      FewerSmall(s.net.history.pushed, Small(s.chat), Small(Worked(s, b, env).0));
      PushedByWork(s.net, b, Worked(s, b, env).1, limits, Small(Worked(s, b, env).0));
  }

  lemma ClosesSoundly(s: System, step: Step, limits: Limits)
    requires T.Sound(s.chat, s.net.nextId) && Enabled(s.net, step)
    ensures T.Sound(AfterClose(s, step, limits), if step.Accepted? then s.net.nextId + 1 else s.net.nextId)
    ensures Small(AfterClose(s, step, limits)) == Small(s.chat)
  {
    hide T.Sound, Apply;
    var subject := Subject(s.net, step);
    if subject.Some? {
      T.UnbindSound(s.chat, subject.value, s.net.nextId);
    }
    if step.Accepted? {
      T.OpenSound(s.chat, s.net.nextId);
    }
  }

  lemma StartHolds(s: System, limits: Limits)
    requires ServerState.Initial(s.net) && s.chat == C.EMPTY
    ensures Holds(s, limits)
  {
    InitialHolds(s.net, limits);
    T.StartSound();
  }

  lemma {:induction false} AlwaysHolds(states: seq<System>, actions: seq<Action>, limits: Limits, k: nat)
    requires Run(states, actions, limits) && k < |states|
    ensures Holds(states[k], limits)
  {
    hide Holds, Act;
    if k == 0 {
      StartHolds(states[0], limits);
    } else {
      AlwaysHolds(states, actions, limits, k - 1);
      ActKeeps(states[k - 1], actions[k - 1], limits);
    }
  }

  ghost function Nets(states: seq<System>): seq<Net> {
    seq(|states|, i requires 0 <= i < |states| => states[i].net)
  }

  /** Seen from the network, a run of the whole server is a run of the network machine, so everything
      proved about those holds with the real chat service behind the workers. */
  lemma ServerRuns(states: seq<System>, actions: seq<Action>, limits: Limits) returns (steps: seq<Step>)
    requires Run(states, actions, limits)
    ensures ServerState.Run(Nets(states), steps, limits) && |steps| == |actions|
  {
    hide Act, Holds, Apply, Enabled, AsStep, ServerState.Initial;
    steps := [];
    for k := 0 to |actions|
      invariant |steps| == k
      invariant forall i :: 0 <= i < k ==> Next(states[i].net, steps[i], states[i + 1].net, limits)
    {
      AlwaysHolds(states, actions, limits, k);
      ActKeeps(states[k], actions[k], limits);
      steps := steps + [AsStep(states[k], actions[k])];
    }
  }

  lemma {:induction false} DataIsPushed(pushed: seq<Response>, small: bool, id: nat)
    requires Replies(pushed, small)
    ensures forall i :: 0 <= i < |DataFor(pushed, id)| ==> IsReply(DataFor(pushed, id)[i], small)
  {
    hide IsReply;
    if pushed != [] {
      DataIsPushed(pushed[..|pushed| - 1], small, id);
    }
  }

  /** End to end. In every run of the whole server and for every connection id given out: what the kernel
      took on the socket of that accept is made of whole frames, up to a last incomplete one; each holds a
      reply, which a client that parses it gets with exactly the intended fields while the server's
      counters fit 64 bits; and they are, in order, the first replies the workers queued for that
      connection. */
  lemma ClientsReceiveReplies(states: seq<System>, actions: seq<Action>, limits: Limits, k: nat, id: nat)
    requires Run(states, actions, limits) && k < |states| && 1 <= id < states[k].net.nextId
    ensures id in states[k].net.kernel.wire
    ensures var net, received := states[k].net, Decode(states[k].net.kernel.wire[id], MAX_PAYLOAD);
            && !received.bad
            && received.packets <= DataFor(net.history.pushed, id)
            && forall i :: 0 <= i < |received.packets| ==> IsReply(received.packets[i], Small(states[k].chat))
  {
    hide IsReply, Decode, Small;
    var net, small := states[k].net, Small(states[k].chat);
    var steps := ServerRuns(states[..k + 1], actions[..k], limits);
    assert Reachable(net, limits) by { assert Nets(states[..k + 1])[|steps|] == net; }
    OutputRefinement(net, limits, id);
    AlwaysHolds(states, actions, limits, k);
    TakenIsPushed(net.history.pushed, net.history.taken, id);
    DataIsPushed(net.history.pushed, small, id);
    var packets := Decode(net.kernel.wire[id], MAX_PAYLOAD).packets;
    forall i | 0 <= i < |packets| ensures IsReply(packets[i], small) {
      assert packets[i] == DataFor(net.history.pushed, id)[i];
    }
  }

  lemma {:induction false} TakenIsPushed(pushed: seq<Response>, taken: nat, id: nat)
    requires taken <= |pushed|
    ensures DataFor(pushed[..taken], id) <= DataFor(pushed, id)
    decreases |pushed|
  {
    if taken == |pushed| {
      assert pushed[..taken] == pushed;
    } else {
      var front := pushed[..|pushed| - 1];
      assert front[..taken] == pushed[..taken];
      TakenIsPushed(front, taken, id);
    }
  }
}
