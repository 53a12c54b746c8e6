/** Sessions and the connections they are on, over runs of the whole server: when every session is on a
    live connection, and which sessions on closed connections never end. */
module ChatLiveness {
  import opened Wrappers
  import opened PacketIo
  import opened Protocol
  import opened Sessions
  import opened UserStore
  import opened ServerState
  import opened ServerInvariant
  import opened ServerTheorems
  import opened ChatNumbers
  import opened ChatServer
  import C = Chat
  import T = ChatTheorems
  import Commands

  ghost predicate SessionsOn(indexes: Indexes, connections: set<nat>) {
    forall u :: u in indexes.byUser ==> indexes.byUser[u].connectionId in connections
  }

  /** Every session is on a live connection. */
  ghost predicate SessionsLive(s: System) {
    SessionsOn(s.chat.indexes, s.net.connections.Keys)
  }

  /** A login that passes all its checks. */
  ghost predicate Admits(chat: C.Chat, c: nat, line: string, env: C.Environment) {
    match Commands.ParseClientCommand(line)
    case Ok(Login(username, password)) =>
      && chat.indexes.FindByConnection(c).None? && chat.indexes.FindByUsername(username).None?
      && chat.users.VerifyLogin(env.kdf, username, password).Some?
    case _ => false
  }

  /** A worker comes to such a login when the connection that asked for it is closed already. */
  ghost predicate LateLogin(s: System, action: Action)
    requires Possible(s, action)
  {
    match action
    case Network(_) => false
    case Work(b, env) =>
      && s.net.work[b].connectionId !in s.net.connections
      && Admits(s.chat, s.net.work[b].connectionId, s.net.work[b].packets[0], env)
  }

  // ------------------------------------------------------------ what closes connections

  /** A step can only end the connection it is about. */
  lemma OnlySubjectLeaves(net: Net, step: Step, limits: Limits, id: nat)
    requires Invariant(net, limits) && Enabled(net, step)
    requires id in net.connections && Subject(net, step) != Some(id)
    ensures id in Apply(net, step, limits).connections
  {
    hide Queued, Flowing, Accounted, Net.HandleResponse, Net.FlushWriteBuffer, Net.HandleClientRead;
    match step
    case Respond(calls, ctlOk) => RespondLeaves(net, calls, ctlOk, limits, id);
    case Writable(fd, calls, ctlOk) => FlushLeaves(net, fd, calls, ctlOk, id);
    case Readable(fd, received, now, queued) => ReadLeaves(net, fd, received, now, queued, limits, id);
    case _ =>
  }

  lemma RespondLeaves(net: Net, calls: seq<SendCall>, ctlOk: bool, limits: Limits, id: nat)
    requires Indexed(net) && net.pending != []
    requires id in net.connections && net.pending[0].connectionId != id
    ensures id in net.HandleResponse(calls, ctlOk, limits).connections
  {
    hide Net.SendToClient, Wired;
    var x := net.pending[0].connectionId;
    if x in net.connections {
      var taken := AfterTake(net);
      assert Wired(taken, x) by { TakeStaysWired(net, x); }
      SendTouches(taken, x, net.pending[0].data, calls, ctlOk, limits);
    }
  }

  lemma TakeStaysWired(net: Net, id: nat)
    requires net.pending != [] && Indexed(net) && id in net.connections
    ensures Wired(AfterTake(net), id)
  {
    assert Wired(net, id);
  }

  lemma FlushLeaves(net: Net, fd: int, calls: seq<SendCall>, ctlOk: bool, id: nat)
    requires Indexed(net) && id in net.connections && net.FindByFd(fd) != Some(id)
    ensures id in net.FlushWriteBuffer(fd, calls, ctlOk).connections
  {
    FlushCases(net, fd, calls, ctlOk);
    var found := net.FindByFd(fd);
    if found.Some? {
      assert Wired(net, found.value);
      FlushTouches(net, found.value, calls, ctlOk);
    }
  }

  lemma ReadLeaves(net: Net, fd: int, calls: seq<RecvCall>, now: int, queued: bool, limits: Limits, id: nat)
    requires id in net.connections && net.FindByFd(fd) != Some(id)
    ensures id in net.HandleClientRead(fd, calls, now, queued, limits).connections
  {
    hide Receive, ReadAll;
    ReadCases(net, fd, calls, now, queued, limits);
  }

  // ------------------------------------------------------------ every session on a live connection

  /** A line changes which connections have sessions only by a logout or an admitted login. */
  lemma LineSessions(chat: C.Chat, c: nat, line: string, env: C.Environment, ids: nat, connections: set<nat>)
    requires T.Sound(chat, ids) && SessionsOn(chat.indexes, connections)
    ensures SessionsOn(C.HandleLine(chat, c, line, env).0.indexes, connections) <==>
            !(c !in connections && Admits(chat, c, line, env))
  {
    hide Commands.ParseClientCommand, C.HandleLine, C.HandleLogin, Indexes.Bijective, Indexes.UnbindConnection,
         Users.VerifyLogin;
    T.LineIndexes(chat, c, line, env);
    UnbindConnectionKeeps(chat.indexes, c);
    var parsed := Commands.ParseClientCommand(line);
    if parsed.Ok? && parsed.value.Login? {
      var username, password := parsed.value.username, parsed.value.password;
      LoginSessions(chat, c, username, password, env, ids, connections);
      LoginLine(chat, c, line, env);
    }
  }

  lemma LoginLine(chat: C.Chat, c: nat, line: string, env: C.Environment)
    requires Commands.ParseClientCommand(line).Ok? && Commands.ParseClientCommand(line).value.Login?
    ensures var login := Commands.ParseClientCommand(line).value;
            C.HandleLine(chat, c, line, env) == C.HandleLogin(chat, c, login.username, login.password, env)
  {
    hide Commands.ParseClientCommand, C.HandleLogin;
  }

  lemma LoginSessions(
    chat: C.Chat, c: nat, username: string, password: string, env: C.Environment, ids: nat, connections: set<nat>)
    requires T.Sound(chat, ids) && SessionsOn(chat.indexes, connections)
    ensures SessionsOn(C.HandleLogin(chat, c, username, password, env).0.indexes, connections) <==>
            || c in connections || chat.indexes.FindByConnection(c).Some?
            || chat.indexes.FindByUsername(username).Some? || chat.users.VerifyLogin(env.kdf, username, password).None?
  {
    hide Indexes.Bind, Users.VerifyLogin, Users.OneToOne, Indexes.Bijective, Indexes.FindByConnection,
         Indexes.FindByUsername;
    var user := chat.users.VerifyLogin(env.kdf, username, password);
    if user.Some? {
      var session := Session(user.value.id, c, user.value.username);
      BoundUsers(chat.indexes, session);
      assert chat.indexes.Bind(session).byUser[session.userId] == session;
    }
  }

  /** Closing connections takes their sessions along. */
  lemma ClosingSessions(s: System, step: Step, limits: Limits)
    requires Invariant(s.net, limits) && T.Sound(s.chat, s.net.nextId) && Enabled(s.net, step) && SessionsLive(s)
    ensures SessionsOn(AfterClose(s, step, limits).indexes, Apply(s.net, step, limits).connections.Keys)
  {
    hide Invariant, Apply, Enabled, Subject, Indexes.Bijective, Indexes.UnbindConnection, Users.OneToOne;
    var subject := Subject(s.net, step);
    forall id | id in s.net.connections && subject != Some(id) ensures id in Apply(s.net, step, limits).connections {
      OnlySubjectLeaves(s.net, step, limits, id);
    }
    if subject.Some? {
      UnbindConnectionKeeps(s.chat.indexes, subject.value);
    }
  }

  /** Sessions stay on live connections in every step but one kind: the late login. */
  lemma LiveUnlessLate(s: System, action: Action, limits: Limits)
    requires Holds(s, limits) && SessionsLive(s) && Possible(s, action)
    ensures SessionsLive(Act(s, action, limits)) <==> !LateLogin(s, action)
  {
    hide Invariant, T.Sound, SessionsOn, Admits, C.HandleLine, Replies, Small;
    match action
    case Network(step) => ClosingSessions(s, step, limits);
    case Work(b, env) =>
      var batch := s.net.work[b];
      LineSessions(s.chat, batch.connectionId, batch.packets[0], env, s.net.nextId, s.net.connections.Keys);
  }

  lemma StartLive(s: System)
    requires s.chat == C.EMPTY
    ensures SessionsLive(s)
  {
    assert NOBODY.byUser == map[];
  }

  lemma {:induction false} LiveUntilLate(states: seq<System>, actions: seq<Action>, limits: Limits, k: nat)
    requires ChatServer.Run(states, actions, limits) && k < |states|
    requires forall i :: 0 <= i < k ==> !LateLogin(states[i], actions[i])
    ensures SessionsLive(states[k])
  {
    hide SessionsLive, LateLogin, Act, Holds, Possible;
    if k == 0 {
      StartLive(states[0]);
    } else {
      LiveUntilLate(states, actions, limits, k - 1);
      AlwaysHolds(states, actions, limits, k - 1);
      LiveUnlessLate(states[k - 1], actions[k - 1], limits);
    }
  }

  /** Over whole runs: in all states every session is on a live connection exactly if no login comes late. */
  lemma LiveExactlyWithoutLate(states: seq<System>, actions: seq<Action>, limits: Limits)
    requires ChatServer.Run(states, actions, limits)
    ensures (forall k :: 0 <= k < |states| ==> SessionsLive(states[k])) <==>
            (forall i :: 0 <= i < |actions| ==> !LateLogin(states[i], actions[i]))
  {
    hide SessionsLive, LateLogin, Act, Holds, Possible;
    if forall i :: 0 <= i < |actions| ==> !LateLogin(states[i], actions[i]) {
      forall k | 0 <= k < |states| ensures SessionsLive(states[k]) {
        LiveUntilLate(states, actions, limits, k);
      }
    }
    if forall k :: 0 <= k < |states| ==> SessionsLive(states[k]) {
      forall i | 0 <= i < |actions| ensures !LateLogin(states[i], actions[i]) {
        AlwaysHolds(states, actions, limits, i);
        assert SessionsLive(states[i]) && SessionsLive(states[i + 1]);
        LiveUnlessLate(states[i], actions[i], limits);
      }
    }
  }

  // ------------------------------------------------------------ sessions that never end

  /** User `u` has a session on a connection that is closed. */
  ghost predicate Stranded(s: System, u: nat) {
    u in s.chat.indexes.byUser && s.chat.indexes.byUser[u].connectionId !in s.net.connections
  }

  predicate IsLogout(line: string) {
    Commands.ParseClientCommand(line) == Ok(Commands.Logout)
  }

  /** The `k`-th packet still to be processed in batch `b` is a logout from connection `c`. */
  ghost predicate LogoutWaits(net: Net, c: nat, b: nat, k: nat) {
    b < |net.work| && net.work[b].connectionId == c && k < |net.work[b].packets| && IsLogout(net.work[b].packets[k])
  }

  /** `u` is stranded, and no logout from that connection is waiting for a worker. */
  ghost predicate Stuck(s: System, u: nat) {
    Stranded(s, u) && forall b, k :: !LogoutWaits(s.net, s.chat.indexes.byUser[u].connectionId, b, k)
  }

  /** Any continuation from any state. */
  ghost predicate Path(states: seq<System>, actions: seq<Action>, limits: Limits) {
    && |states| == |actions| + 1
    && forall i :: 0 <= i < |actions| ==>
         Possible(states[i], actions[i]) && states[i + 1] == Act(states[i], actions[i], limits)
  }

  /** Only a logout read by a worker ends the session of a closed connection. */
  lemma StrandedStays(s: System, action: Action, limits: Limits, u: nat)
    requires Holds(s, limits) && Possible(s, action) && Stranded(s, u)
    requires action.Work? && s.net.work[action.b].connectionId == s.chat.indexes.byUser[u].connectionId ==>
               !IsLogout(s.net.work[action.b].packets[0])
    ensures Stranded(Act(s, action, limits), u)
    ensures Act(s, action, limits).chat.indexes.byUser[u] == s.chat.indexes.byUser[u]
  {
    hide Invariant, T.Sound, Replies, Small, Act;
    StaysClosed(s, action, limits, u);
    SessionStays(s, action, limits, u);
  }

  lemma StaysClosed(s: System, action: Action, limits: Limits, u: nat)
    requires Holds(s, limits) && Possible(s, action) && Stranded(s, u)
    ensures s.chat.indexes.byUser[u].connectionId !in Act(s, action, limits).net.connections
  {
    hide Invariant, Replies, Act, Possible, AsStep;
    ActKeeps(s, action, limits);
    OnlyOwnerWrites(s.net, AsStep(s, action), limits, s.chat.indexes.byUser[u].connectionId);
  }

  lemma SessionStays(s: System, action: Action, limits: Limits, u: nat)
    requires Holds(s, limits) && Possible(s, action) && Stranded(s, u)
    requires action.Work? && s.net.work[action.b].connectionId == s.chat.indexes.byUser[u].connectionId ==>
               !IsLogout(s.net.work[action.b].packets[0])
    ensures Act(s, action, limits).chat.indexes.Find(u) == Some(s.chat.indexes.byUser[u])
  {
    hide Invariant, T.Sound, Replies, Small, C.HandleLine, Commands.ParseClientCommand, Indexes.UnbindConnection,
         Subject;
    var w := T.World(s.chat, s.net.nextId);
    match action
    case Network(step) =>
      var subject := Subject(s.net, step);
      if subject.Some? && AfterClose(s, step, limits).indexes.Find(u) != Some(s.chat.indexes.byUser[u]) {
        T.SessionsEndByTheirOwn(w, T.Disconnected(subject.value), u);
        assert false;
      }
    case Work(b, env) =>
      var batch := s.net.work[b];
      var after := C.HandleLine(s.chat, batch.connectionId, batch.packets[0], env).0;
      if after.indexes.Find(u) != Some(s.chat.indexes.byUser[u]) {
        T.SessionsEndByTheirOwn(w, T.Line(batch.connectionId, batch.packets[0], env), u);
        assert false;
      }
  }

  /** A closed connection brings no further packets, so no further logout. */
  lemma NoNewLogout(s: System, action: Action, limits: Limits, c: nat)
    requires Possible(s, action) && c !in s.net.connections
    requires forall b, k :: !LogoutWaits(s.net, c, b, k)
    ensures forall b, k :: !LogoutWaits(Act(s, action, limits).net, c, b, k)
  {
    hide IsLogout, Net.HandleClientRead, Net.HandleResponse, Net.FlushWriteBuffer, Net.ProcessPacket, C.HandleLine;
    match action
    case Network(step) => NoNewPackets(s.net, step, limits, c);
    case Work(b, env) => FewerPackets(s.net, b, Worked(s, b, env).1, limits, c);
  }

  lemma NoNewPackets(net: Net, step: Step, limits: Limits, c: nat)
    requires Enabled(net, step) && !step.Processed? && c !in net.connections
    requires forall b, k :: !LogoutWaits(net, c, b, k)
    ensures forall b, k :: !LogoutWaits(Apply(net, step, limits), c, b, k)
  {
    hide IsLogout, Net.HandleClientRead, Net.HandleResponse, Net.FlushWriteBuffer;
    var after := Apply(net, step, limits);
    match step
    case Respond(calls, ctlOk) => RespondQueues(net, calls, ctlOk, limits); SameWork(net, after, c);
    case Writable(fd, calls, ctlOk) => FlushLeavesQueues(net, fd, calls, ctlOk); SameWork(net, after, c);
    case Readable(fd, received, now, queued) => NoNewBatch(net, fd, received, now, queued, limits, c);
    case _ => SameWork(net, after, c);
  }

  lemma SameWork(net: Net, after: Net, c: nat)
    requires after.work == net.work && forall b, k :: !LogoutWaits(net, c, b, k)
    ensures forall b, k :: !LogoutWaits(after, c, b, k)
  {
    forall b, k ensures !LogoutWaits(after, c, b, k) {
      assert !LogoutWaits(net, c, b, k);
    }
  }

  lemma NoNewBatch(net: Net, fd: int, calls: seq<RecvCall>, now: int, queued: bool, limits: Limits, c: nat)
    requires c !in net.connections && forall b, k :: !LogoutWaits(net, c, b, k)
    ensures forall b, k :: !LogoutWaits(net.HandleClientRead(fd, calls, now, queued, limits), c, b, k)
  {
    hide IsLogout, Receive, ReadAll;
    ReadCases(net, fd, calls, now, queued, limits);
    var after := net.HandleClientRead(fd, calls, now, queued, limits);
    forall b, k ensures !LogoutWaits(after, c, b, k) {
      assert !LogoutWaits(net, c, b, k);
    }
  }

  lemma FewerPackets(net: Net, b: nat, out: seq<Outbound>, limits: Limits, c: nat)
    requires b < |net.work| && net.work[b].packets != []
    requires forall x, k :: !LogoutWaits(net, c, x, k)
    ensures forall x, k :: !LogoutWaits(net.ProcessPacket(b, out, limits), c, x, k)
  {
    hide IsLogout, QueueEntries;
    var after := net.ProcessPacket(b, out, limits);
    forall x: nat, k: nat ensures !LogoutWaits(after, c, x, k) {
      assert !LogoutWaits(net, c, x, k) && !LogoutWaits(net, c, x, k + 1);
    }
  }

  lemma StuckStays(s: System, action: Action, limits: Limits, u: nat)
    requires Holds(s, limits) && Possible(s, action) && Stuck(s, u)
    ensures Stuck(Act(s, action, limits), u)
    ensures Act(s, action, limits).chat.indexes.byUser[u] == s.chat.indexes.byUser[u]
  {
    hide Holds, Act, IsLogout;
    if action.Work? {
      assert !LogoutWaits(s.net, s.chat.indexes.byUser[u].connectionId, action.b, 0);
    }
    StrandedStays(s, action, limits, u);
    NoNewLogout(s, action, limits, s.chat.indexes.byUser[u].connectionId);
  }

  lemma {:induction false} PathHolds(states: seq<System>, actions: seq<Action>, limits: Limits, k: nat)
    requires Path(states, actions, limits) && Holds(states[0], limits) && k < |states|
    ensures Holds(states[k], limits)
  {
    hide Holds, Act;
    if k > 0 {
      PathHolds(states, actions, limits, k - 1);
      ActKeeps(states[k - 1], actions[k - 1], limits);
    }
  }

  lemma {:induction false} StuckForGood(
    states: seq<System>, actions: seq<Action>, limits: Limits, u: nat, i: nat, j: nat)
    requires Path(states, actions, limits) && Holds(states[0], limits) && i <= j < |states| && Stuck(states[i], u)
    ensures Stuck(states[j], u) && states[j].chat.indexes.byUser[u] == states[i].chat.indexes.byUser[u]
    decreases j
  {
    hide Holds, Act, Possible, LogoutWaits;
    if i < j {
      StuckForGood(states, actions, limits, u, i, j - 1);
      PathHolds(states, actions, limits, j - 1);
      StuckStays(states[j - 1], actions[j - 1], limits, u);
    }
  }

  /** The session of `u` can still end. */
  ghost predicate CanEnd(s: System, limits: Limits, u: nat) {
    exists states: seq<System>, actions: seq<Action> ::
      Path(states, actions, limits) && states[0] == s && u !in states[|actions|].chat.indexes.byUser
  }

  const ANY := C.Environment((password, iterations, salt) => None, None)

  lemma SessionFound(indexes: Indexes, u: nat)
    requires indexes.Bijective() && u in indexes.byUser
    ensures indexes.FindByConnection(indexes.byUser[u].connectionId) == Some(indexes.byUser[u])
    ensures indexes.FindByUsername(indexes.byUser[u].username) == Some(indexes.byUser[u])
  {
  }

  lemma LogoutEnds(s: System, limits: Limits, u: nat, b: nat)
    requires Holds(s, limits) && Stranded(s, u)
    requires LogoutWaits(s.net, s.chat.indexes.byUser[u].connectionId, b, 0)
    ensures Possible(s, Work(b, ANY)) && u !in Act(s, Work(b, ANY), limits).chat.indexes.byUser
  {
    hide Invariant, Replies, Commands.ParseClientCommand, Net.ProcessPacket, Indexes.Bijective,
         Indexes.UnbindConnection, Users.OneToOne, ANY;
    var c := s.chat.indexes.byUser[u].connectionId;
    SessionFound(s.chat.indexes, u);
    UnbindConnectionKeeps(s.chat.indexes, c);
  }

  lemma EndsLater(s: System, action: Action, limits: Limits, u: nat)
    requires Possible(s, action)
    requires u !in Act(s, action, limits).chat.indexes.byUser || CanEnd(Act(s, action, limits), limits, u)
    ensures CanEnd(s, limits, u)
  {
    hide Act, Possible;
    var after := Act(s, action, limits);
    var states, actions := [after], [];
    if u in after.chat.indexes.byUser {
      states, actions :|
        Path(states, actions, limits) && states[0] == after && u !in states[|actions|].chat.indexes.byUser;
    }
    var longer, all := [s] + states, [action] + actions;
    forall i | 0 <= i < |all|
      ensures Possible(longer[i], all[i]) && longer[i + 1] == Act(longer[i], all[i], limits)
    {
      if i > 0 { assert longer[i] == states[i - 1] && all[i] == actions[i - 1] && longer[i + 1] == states[i]; }
    }
    assert Path(longer, all, limits) && longer[0] == s && longer[|all|] == states[|actions|];
  }

  lemma {:induction false} WaitingLogoutEnds(s: System, limits: Limits, u: nat, b: nat, k: nat)
    requires Holds(s, limits) && Stranded(s, u)
    requires LogoutWaits(s.net, s.chat.indexes.byUser[u].connectionId, b, k)
    ensures CanEnd(s, limits, u)
    decreases k
  {
    hide Holds, Act, CanEnd, Possible, Stranded, IsLogout, ANY, Commands.ParseClientCommand;
    if IsLogout(s.net.work[b].packets[0]) {
      LogoutEnds(s, limits, u, b);
    } else {
      LogoutComesNearer(s, limits, u, b, k);
      WaitingLogoutEnds(Act(s, Work(b, ANY), limits), limits, u, b, k - 1);
    }
    EndsLater(s, Work(b, ANY), limits, u);
  }

  lemma LogoutComesNearer(s: System, limits: Limits, u: nat, b: nat, k: nat)
    requires Holds(s, limits) && Stranded(s, u)
    requires LogoutWaits(s.net, s.chat.indexes.byUser[u].connectionId, b, k) && !IsLogout(s.net.work[b].packets[0])
    ensures k > 0 && Possible(s, Work(b, ANY))
    ensures var after := Act(s, Work(b, ANY), limits);
            && Holds(after, limits) && Stranded(after, u)
            && LogoutWaits(after.net, after.chat.indexes.byUser[u].connectionId, b, k - 1)
  {
    hide Holds, Act, IsLogout, ANY;
    StrandedStays(s, Work(b, ANY), limits, u);
    ActKeeps(s, Work(b, ANY), limits);
    NextWaits(s, limits, s.chat.indexes.byUser[u].connectionId, b, k);
  }

  lemma NextWaits(s: System, limits: Limits, c: nat, b: nat, k: nat)
    requires k > 0 && LogoutWaits(s.net, c, b, k)
    ensures LogoutWaits(Act(s, Work(b, ANY), limits).net, c, b, k - 1)
  {
    hide IsLogout, QueueEntries, C.HandleLine, ANY;
  }

  /** Which sessions on closed connections never end: exactly those for which no logout is waiting. */
  lemma StuckIsForever(s: System, limits: Limits, u: nat)
    requires Holds(s, limits) && Stranded(s, u)
    ensures Stuck(s, u) <==> !CanEnd(s, limits, u)
    ensures Stuck(s, u) ==>
              forall states: seq<System>, actions: seq<Action> :: Path(states, actions, limits) && states[0] == s ==>
                Stuck(states[|actions|], u) && states[|actions|].chat.indexes.byUser[u] == s.chat.indexes.byUser[u]
  {
    hide Holds, LogoutWaits, Act, Possible;
    if Stuck(s, u) {
      forall states: seq<System>, actions: seq<Action> | Path(states, actions, limits) && states[0] == s
        ensures Stuck(states[|actions|], u) && states[|actions|].chat.indexes.byUser[u] == s.chat.indexes.byUser[u]
      {
        StuckForGood(states, actions, limits, u, 0, |actions|);
      }
    } else {
      var b, k :| LogoutWaits(s.net, s.chat.indexes.byUser[u].connectionId, b, k);
      WaitingLogoutEnds(s, limits, u, b, k);
    }
  }

  /** As long as a session lasts, every login for its name is refused and changes nothing. */
  lemma NameIsTaken(s: System, limits: Limits, u: nat, c: nat, line: string, password: string, env: C.Environment)
    requires Holds(s, limits) && u in s.chat.indexes.byUser
    requires Commands.ParseClientCommand(line) == Ok(Commands.Login(s.chat.indexes.byUser[u].username, password))
    ensures var found := s.chat.indexes.FindByConnection(c);
            var reason := if found.Some? then "already logged in" else "user already online";
            C.HandleLine(s.chat, c, line, env) == (s.chat, C.Answer(c, LoginFailed(reason)))
  {
    hide Commands.ParseClientCommand, Invariant, Replies;
    SessionFound(s.chat.indexes, u);
  }

  /** What that means for the user. Once a session is stuck, its name is lost for the rest of the run:
      whoever logs in with it, on whatever connection and with whatever password, is refused, and the
      chat state stays as it is. */
  lemma StuckLocksOut(
    states: seq<System>, actions: seq<Action>, limits: Limits, i: nat, j: nat, u: nat, password: string)
    requires ChatServer.Run(states, actions, limits) && i <= j < |actions| && Stuck(states[i], u)
    requires actions[j].Work? && Commands.ParseClientCommand(states[j].net.work[actions[j].b].packets[0]) ==
                                 Ok(Commands.Login(states[i].chat.indexes.byUser[u].username, password))
    ensures var b, before := actions[j].b, states[j];
            var c := before.net.work[b].connectionId;
            var found := before.chat.indexes.FindByConnection(c);
            var reason := if found.Some? then "already logged in" else "user already online";
            && states[j + 1].chat == before.chat
            && states[j + 1].net ==
               before.net.ProcessPacket(b, [Outbound(c, Format(LoginFailed(reason)), false)], limits)
  {
    hide Holds, LogoutWaits, Commands.ParseClientCommand, C.HandleLine, Net.ProcessPacket;
    assert Path(states, actions, limits);
    AlwaysHolds(states, actions, limits, 0);
    StuckForGood(states, actions, limits, u, i, j);
    AlwaysHolds(states, actions, limits, j);
    var batch := states[j].net.work[actions[j].b];
    NameIsTaken(states[j], limits, u, batch.connectionId, batch.packets[0], password, actions[j].env);
    assert states[j + 1] == Act(states[j], actions[j], limits);
    RefusedAct(states[j], actions[j].b, actions[j].env, limits,
               if states[j].chat.indexes.FindByConnection(batch.connectionId).Some? then "already logged in"
               else "user already online");
  }

  lemma RefusedAct(s: System, b: nat, env: C.Environment, limits: Limits, reason: string)
    requires Possible(s, Work(b, env))
    requires var c := s.net.work[b].connectionId;
             C.HandleLine(s.chat, c, s.net.work[b].packets[0], env) == (s.chat, C.Answer(c, LoginFailed(reason)))
    ensures Act(s, Work(b, env), limits).chat == s.chat
    ensures Act(s, Work(b, env), limits).net ==
            s.net.ProcessPacket(b, [Outbound(s.net.work[b].connectionId, Format(LoginFailed(reason)), false)], limits)
  {
    hide C.HandleLine, Net.ProcessPacket, Format;
    assert Worked(s, b, env).1 == [Outbound(s.net.work[b].connectionId, Format(LoginFailed(reason)), false)];
  }
}
