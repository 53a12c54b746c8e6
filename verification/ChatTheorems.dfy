/** What the chat machine keeps over whole runs, and what it delivers to whom. */
module ChatTheorems {
  import opened Wrappers
  import opened Protocol
  import opened Sessions
  import opened UserStore
  import opened GroupMembers
  import opened Chat
  import Commands
  import M = MessageStore

  /** Every session carries the name its user is registered with. */
  ghost predicate Named(indexes: Indexes, users: Users) {
    forall u :: u in indexes.byUser ==>
      users.FindById(u).Some? && users.FindById(u).value.username == indexes.byUser[u].username
  }

  /** Every session is on a connection id below `ids`, the next one the network gives out. */
  ghost predicate Allocated(indexes: Indexes, ids: nat) {
    forall u :: u in indexes.byUser ==> 1 <= indexes.byUser[u].connectionId < ids
  }

  ghost predicate Within(online: Groups, members: Groups) {
    forall g, u :: IsMember(online, g, u) ==> IsMember(members, g, u)
  }

  ghost predicate Sound(chat: Chat, ids: nat) {
    && chat.indexes.Bijective()
    && chat.users.OneToOne() && chat.users.nextId >= 1
    && Named(chat.indexes, chat.users)
    && Allocated(chat.indexes, ids)
    && NoEmptyGroup(chat.members) && NoEmptyGroup(chat.online)
    && Within(chat.online, chat.members)
  }

  // ------------------------------------------------------------ steps

  /** `Opened` is the network accepting a connection, `Restart` a new session manager over old stores. */
  datatype Step =
    | Opened
    | Line(connectionId: nat, line: string, env: Environment)
    | Disconnected(connectionId: nat)
    | Restart

  datatype World = World(chat: Chat, ids: nat)

  ghost function Advance(w: World, step: Step): World {
    match step
    case Opened => w.(ids := w.ids + 1)
    case Line(c, line, env) => w.(chat := HandleLine(w.chat, c, line, env).0)
    case Disconnected(c) => w.(chat := HandleDisconnect(w.chat, c))
    case Restart => World(Restarted(w.chat), 1)
  }

  ghost function AdvanceAll(w: World, steps: seq<Step>): World {
    if steps == [] then w else Advance(AdvanceAll(w, steps[..|steps| - 1]), steps[|steps| - 1])
  }

  /** Lines come in on connections that were opened. */
  ghost predicate Feasible(w: World, steps: seq<Step>) {
    forall k :: 0 <= k < |steps| && steps[k].Line? ==> 1 <= steps[k].connectionId < AdvanceAll(w, steps[..k]).ids
  }

  lemma RegisteredStay(users: Users, username: string, password: string, hash: string, id: nat)
    requires users.OneToOne() && users.nextId >= 1 && users.FindById(id).Some?
    ensures users.Register(username, password, hash).0.FindById(id) == users.FindById(id)
  {
  }

  lemma RegisterSound(chat: Chat, c: nat, username: string, password: string, env: Environment, ids: nat)
    requires Sound(chat, ids)
    ensures Sound(HandleRegister(chat, c, username, password, env).0, ids)
  {
    hide Indexes.Bijective, Users.OneToOne, Users.Register, Users.FindById;
    var hash := Passwords.HashPassword(env.kdf, password, env.salt);
    RegisterKeeps(chat.users, username, password, hash);
    forall u | u in chat.indexes.byUser
      ensures chat.users.Register(username, password, hash).0.FindById(u) == chat.users.FindById(u)
    {
      RegisteredStay(chat.users, username, password, hash, u);
    }
  }

  lemma LoginSound(chat: Chat, c: nat, username: string, password: string, env: Environment, ids: nat)
    requires Sound(chat, ids) && 1 <= c < ids
    ensures Sound(HandleLogin(chat, c, username, password, env).0, ids)
  {
    hide Indexes.Bijective, Indexes.Bind, Users.OneToOne, Users.FindById, NoEmptyGroup, Within;
    var user := chat.users.VerifyLogin(env.kdf, username, password);
    if user.Some? && chat.indexes.FindByUsername(username).None? {
      var session := Session(user.value.id, c, user.value.username);
      VerifiedUser(chat.users, env.kdf, username, password);
      OfflineNameIsFree(chat.indexes, session);
      BindKeeps(chat.indexes, session);
      BoundUsers(chat.indexes, session);
    }
  }

  lemma VerifiedUser(users: Users, kdf: Passwords.Kdf, username: string, password: string)
    requires users.OneToOne() && users.VerifyLogin(kdf, username, password).Some?
    ensures var user := users.VerifyLogin(kdf, username, password).value;
            user.username == username && users.FindById(user.id) == Some(user)
  {
  }

  lemma OfflineNameIsFree(indexes: Indexes, session: Session)
    requires indexes.Bijective() && indexes.FindByUsername(session.username).None?
    ensures NameIsFree(indexes, session)
  {
  }

  lemma UnbindSound(chat: Chat, c: nat, ids: nat)
    requires Sound(chat, ids)
    ensures Sound(HandleDisconnect(chat, c), ids)
  {
    hide Indexes.Bijective, Indexes.UnbindConnection, Users.OneToOne, Users.FindById;
    UnbindConnectionKeeps(chat.indexes, c);
  }

  lemma GroupsSound(online: Groups, members: Groups, groupId: nat, userId: nat)
    requires NoEmptyGroup(online) && NoEmptyGroup(members) && Within(online, members)
    ensures NoEmptyGroup(Joined(online, groupId, userId)) && NoEmptyGroup(Joined(members, groupId, userId))
    ensures NoEmptyGroup(Left(online, groupId, userId)) && NoEmptyGroup(Left(members, groupId, userId))
    ensures Within(Joined(online, groupId, userId), Joined(members, groupId, userId))
    ensures Within(Left(online, groupId, userId), Left(members, groupId, userId))
  {
    hide NoEmptyGroup, Joined, Left, IsMember;
    GroupsKeepNonEmpty(online, groupId, userId);
    GroupsKeepNonEmpty(members, groupId, userId);
  }

  lemma SessionSound(chat: Chat, sender: Session, command: Commands.Command, ids: nat)
    requires Sound(chat, ids)
    ensures Sound(HandleSession(chat, sender, command).0, ids)
  {
    hide Indexes.Bijective, Users.OneToOne, Named, Allocated, NoEmptyGroup, Within, HandleUnread, HandleHistory,
         HandleGroupHistory, Joined, Left, IsMember;
    match command
    case Logout => UnbindSound(chat, sender.connectionId, ids);
    case CreateGroup(_) => GroupsSound(chat.online, chat.members, chat.nextGroup, sender.userId);
    case JoinGroup(groupId) => GroupsSound(chat.online, chat.members, groupId, sender.userId);
    case LeaveGroup(groupId) => GroupsSound(chat.online, chat.members, groupId, sender.userId);
    case _ =>
  }

  lemma LineSound(chat: Chat, c: nat, line: string, env: Environment, ids: nat)
    requires Sound(chat, ids) && 1 <= c < ids
    ensures Sound(HandleLine(chat, c, line, env).0, ids)
  {
    hide Sound, HandleRegister, HandleLogin, HandleSession, Commands.ParseClientCommand, Indexes.FindByConnection;
    var parsed := Commands.ParseClientCommand(line);
    if parsed.Ok? {
      match parsed.value
      case Register(username, password) => RegisterSound(chat, c, username, password, env, ids);
      case Login(username, password) => LoginSound(chat, c, username, password, env, ids);
      case command =>
        var sender := chat.indexes.FindByConnection(c);
        if sender.Some? {
          SessionSound(chat, sender.value.(connectionId := c), command, ids);
        }
    }
  }

  lemma OpenSound(chat: Chat, ids: nat)
    requires Sound(chat, ids)
    ensures Sound(chat, ids + 1)
  {
    hide Indexes.Bijective, Users.OneToOne, Named, NoEmptyGroup, Within;
  }

  lemma RestartSound(chat: Chat, ids: nat)
    requires Sound(chat, ids)
    ensures Sound(Restarted(chat), 1)
    ensures Restarted(chat).indexes.byUser == map[] && forall g, u :: !IsMember(Restarted(chat).online, g, u)
  {
    hide Users.OneToOne;
    NobodyIsBijective();
    assert NOBODY.byUser == map[];
  }

  lemma StepSound(w: World, step: Step)
    requires Sound(w.chat, w.ids) && (step.Line? ==> 1 <= step.connectionId < w.ids)
    ensures Sound(Advance(w, step).chat, Advance(w, step).ids)
  {
    hide Sound, HandleLine, HandleDisconnect, Restarted;
    match step
    case Opened => OpenSound(w.chat, w.ids);
    case Line(c, line, env) => LineSound(w.chat, c, line, env, w.ids);
    case Disconnected(c) => UnbindSound(w.chat, c, w.ids);
    case Restart => RestartSound(w.chat, w.ids);
  }

  const START := World(EMPTY, 1)

  lemma StartSound()
    ensures Sound(EMPTY, 1)
  {
    NobodyIsBijective();
    assert NOBODY.byUser == map[];
  }

  /** In every run of commands, disconnects and restarts: the session indexes describe one bijection
      between users, connections and usernames, the names being those of the user store, whose ids and
      names are one to one; all sessions are on connection ids that were given out; no group map holds
      an empty group, and the session manager's is contained in the member store's. */
  lemma {:induction false} AlwaysSound(steps: seq<Step>)
    requires Feasible(START, steps)
    ensures Sound(AdvanceAll(START, steps).chat, AdvanceAll(START, steps).ids)
  {
    hide Sound, Advance;
    if steps == [] {
      StartSound();
    } else {
      var front := steps[..|steps| - 1];
      FewerSteps(START, steps);
      AlwaysSound(front);
      StepSound(AdvanceAll(START, front), steps[|steps| - 1]);
    }
  }

  lemma FewerSteps(w: World, steps: seq<Step>)
    requires steps != [] && Feasible(w, steps)
    ensures Feasible(w, steps[..|steps| - 1])
    ensures var last := steps[|steps| - 1];
            last.Line? ==> 1 <= last.connectionId < AdvanceAll(w, steps[..|steps| - 1]).ids
  {
    var front := steps[..|steps| - 1];
    assert forall k :: 0 <= k < |front| ==> front[..k] == steps[..k];
  }

  // ------------------------------------------------------------ groups

  /** Until a restart both group maps are the same. */
  lemma {:induction false} GroupMapsAgree(steps: seq<Step>)
    requires Restart !in steps
    ensures AdvanceAll(START, steps).chat.online == AdvanceAll(START, steps).chat.members
  {
    hide HandleLine;
    if steps != [] {
      var front := steps[..|steps| - 1];
      assert steps[|steps| - 1] in steps;
      GroupMapsAgree(front);
      var w := AdvanceAll(START, front);
      match steps[|steps| - 1]
      case Line(c, line, env) => LineMirrors(w.chat, c, line, env);
      case _ =>
    }
  }

  lemma LineMirrors(chat: Chat, c: nat, line: string, env: Environment)
    requires chat.online == chat.members
    ensures HandleLine(chat, c, line, env).0.online == HandleLine(chat, c, line, env).0.members
  {
    hide Commands.ParseClientCommand, Joined, Left, IsMember, Users.Register, Indexes.Bind, Copies;
  }

  // ------------------------------------------------------------ sessions

  /** A session ends, or changes, only by a logout or a disconnect of its own connection, or by a
      restart; in particular no login evicts anyone. */
  lemma SessionsEndByTheirOwn(w: World, step: Step, u: nat)
    requires Sound(w.chat, w.ids) && u in w.chat.indexes.byUser
    requires Advance(w, step).chat.indexes.Find(u) != Some(w.chat.indexes.byUser[u])
    ensures || step.Restart? || step.Disconnected?
            || (step.Line? && Commands.ParseClientCommand(step.line) == Ok(Commands.Logout))
    ensures !step.Restart? ==> step.connectionId == w.chat.indexes.byUser[u].connectionId
  {
    hide Commands.ParseClientCommand, Indexes.Bijective, Indexes.UnbindConnection, Users.OneToOne, HandleLine, HandleLogin,
         NoEmptyGroup, Within, Named, Allocated;
    var indexes := w.chat.indexes;
    match step
    case Disconnected(c) => UnbindConnectionKeeps(indexes, c);
    case Line(c, line, env) =>
      LineIndexes(w.chat, c, line, env);
      UnbindConnectionKeeps(indexes, c);
      var parsed := Commands.ParseClientCommand(line);
      if parsed.Ok? && parsed.value.Login? {
        LoginEvictsNobody(w.chat, c, parsed.value.username, parsed.value.password, env, w.ids, u);
      }
    case _ =>
  }

  lemma LineIndexes(chat: Chat, c: nat, line: string, env: Environment)
    ensures var parsed, indexes := Commands.ParseClientCommand(line), HandleLine(chat, c, line, env).0.indexes;
            || indexes == chat.indexes
            || (parsed == Ok(Commands.Logout) && indexes == chat.indexes.UnbindConnection(c))
            || (parsed.Ok? && parsed.value.Login? &&
                indexes == HandleLogin(chat, c, parsed.value.username, parsed.value.password, env).0.indexes)
  {
    hide Commands.ParseClientCommand, HandleLogin, Indexes.UnbindConnection, Copies, Users.Register, Joined, Left, IsMember;
  }

  lemma LoginEvictsNobody(chat: Chat, c: nat, username: string, password: string, env: Environment, ids: nat, u: nat)
    requires Sound(chat, ids) && u in chat.indexes.byUser
    ensures HandleLogin(chat, c, username, password, env).0.indexes.Find(u) == Some(chat.indexes.byUser[u])
  {
    hide Indexes.Bind, Users.VerifyLogin;
    var user := chat.users.VerifyLogin(env.kdf, username, password);
    if chat.indexes.FindByConnection(c).None? && chat.indexes.FindByUsername(username).None? && user.Some? {
      VerifiedUser(chat.users, env.kdf, username, password);
      BoundUsers(chat.indexes, Session(user.value.id, c, user.value.username));
    }
  }

  /** When a login succeeds: on a connection without a session, for a name nobody is online with, and
      a password the stored record accepts. Then the connection carries that user's session; otherwise
      nothing changes. */
  lemma LoginIsExclusive(chat: Chat, c: nat, username: string, password: string, env: Environment, ids: nat)
    requires Sound(chat, ids)
    ensures var (after, out) := Handle(chat, c, Commands.Login(username, password), env);
            var user := chat.users.VerifyLogin(env.kdf, username, password);
            var allowed := user.Some? && forall u :: u in chat.indexes.byUser ==>
              chat.indexes.byUser[u].connectionId != c && chat.indexes.byUser[u].username != username;
            && (allowed <==> out[0].reply.LoginSuccess?)
            && (allowed ==> after.indexes.FindByConnection(c) == Some(Session(user.value.id, c, username)))
            && (!allowed ==> after == chat)
  {
    hide Users.VerifyLogin;
    if chat.users.VerifyLogin(env.kdf, username, password).Some? {
      VerifiedUser(chat.users, env.kdf, username, password);
    }
  }

  // ------------------------------------------------------------ deliveries

  function Targets(out: seq<Delivery>): set<nat> {
    set d | d in out :: d.connectionId
  }

  ghost predicate DistinctTargets(out: seq<Delivery>) {
    forall i, j :: 0 <= i < j < |out| ==> out[i].connectionId != out[j].connectionId
  }

  /** The connections of the listed users that are online, except the sender. */
  function OnlineConnections(indexes: Indexes, members: set<nat>, senderId: nat): set<nat> {
    set u | u in members && u in indexes.byUser && u != senderId :: indexes.byUser[u].connectionId
  }

  lemma {:induction false} CopiesAreExact(indexes: Indexes, members: seq<nat>, senderId: nat, reply: Reply)
    requires indexes.Bijective() && Ascending(members)
    ensures var copies := Copies(indexes, members, senderId, reply);
            && Targets(copies) == OnlineConnections(indexes, Elements(members), senderId)
            && DistinctTargets(copies)
            && (forall d :: d in copies ==> d.reply == reply && !d.closing)
  {
    if members == [] {
      assert Targets([]) == OnlineConnections(indexes, {}, senderId);
    } else {
      var front, last := members[..|members| - 1], members[|members| - 1];
      DropGreatest(members);
      CopiesAreExact(indexes, front, senderId, reply);
      OneMoreCopy(indexes, Copies(indexes, front, senderId, reply), Elements(front), last, senderId, reply);
      assert Elements(members) == Elements(front) + {last} by { assert last in members; }
    }
  }

  lemma OneMoreCopy(indexes: Indexes, copies: seq<Delivery>, members: set<nat>, u: nat, senderId: nat, reply: Reply)
    requires indexes.Bijective() && u !in members
    requires Targets(copies) == OnlineConnections(indexes, members, senderId) && DistinctTargets(copies)
    ensures var found := indexes.Find(u);
            var more := copies + if u != senderId && found.Some? then Answer(found.value.connectionId, reply) else [];
            Targets(more) == OnlineConnections(indexes, members + {u}, senderId) && DistinctTargets(more)
  {
    if u != senderId && u in indexes.byUser {
      var c := indexes.byUser[u].connectionId;
      assert c !in Targets(copies);
      AppendTarget(copies, Delivery(c, reply, false));
      assert OnlineConnections(indexes, members + {u}, senderId) == OnlineConnections(indexes, members, senderId) + {c};
    } else {
      assert copies + [] == copies;
      assert OnlineConnections(indexes, members + {u}, senderId) == OnlineConnections(indexes, members, senderId);
    }
  }

  lemma AppendTarget(copies: seq<Delivery>, d: Delivery)
    requires DistinctTargets(copies) && d.connectionId !in Targets(copies)
    ensures Targets(copies + [d]) == Targets(copies) + {d.connectionId} && DistinctTargets(copies + [d])
  {
    assert forall x :: x in copies + [d] <==> x in copies || x == d;
    forall i | 0 <= i < |copies| ensures copies[i].connectionId != d.connectionId {
      assert copies[i] in copies;
    }
  }

  /** An accepted group message: one copy to each online member other than the sender, on pairwise
      distinct connections none of which is the sender's, then one ack to the sender, which carries the
      position of the appended message and is marked delivered exactly when there was a copy. */
  lemma GroupFanOutIsExact(chat: Chat, c: nat, groupId: nat, body: string, env: Environment, ids: nat)
    requires Sound(chat, ids) && chat.indexes.FindByConnection(c).Some?
    requires IsMember(chat.members, groupId, chat.indexes.FindByConnection(c).value.userId)
    ensures var (after, out) := Handle(chat, c, Commands.GroupChat(groupId, body), env);
            var sender, last := chat.indexes.FindByConnection(c).value, |out| - 1;
            && last >= 0
            && Targets(out[..last]) == OnlineConnections(chat.indexes, chat.members[groupId], sender.userId)
            && DistinctTargets(out)
            && (forall i :: 0 <= i < last ==>
                  out[i].reply == GroupMessage(groupId, sender.username, body) && !out[i].closing)
            && out[last] == Delivery(c, MessageAck(|after.log|, true, last > 0), false)
            && after == chat.(log := chat.log + [M.Message(M.GroupChat, sender.userId, groupId, body)])
  {
    hide Handle, Sound, Targets, OnlineConnections, DistinctTargets, Copies, Indexes.Bijective, Lists;
    var sender := chat.indexes.FindByConnection(c).value;
    HandledInSession(chat, c, Commands.GroupChat(groupId, body), env, ids);
    CopiesOfMessage(chat, sender, groupId, body, ids);
    var copies := CopiesFor(chat, sender, groupId, body);
    AckAtTheEnd(chat, copies, sender, groupId, body);
    var (after, out) := HandleGroupChat(chat, sender, groupId, body);
    forall i | 0 <= i < |copies|
      ensures out[i].reply == GroupMessage(groupId, sender.username, body) && !out[i].closing
    {
      assert out[i] == copies[i] && copies[i] in copies;
    }
  }

  ghost function CopiesFor(chat: Chat, sender: Session, groupId: nat, body: string): seq<Delivery> {
    Copies(chat.indexes, ListOf(MembersOf(chat.members, groupId)), sender.userId,
           GroupMessage(groupId, sender.username, body))
  }

  lemma CopiesOfMessage(chat: Chat, sender: Session, groupId: nat, body: string, ids: nat)
    requires Sound(chat, ids) && chat.indexes.Find(sender.userId) == Some(sender) && groupId in chat.members
    ensures var copies := CopiesFor(chat, sender, groupId, body);
            && Targets(copies) == OnlineConnections(chat.indexes, chat.members[groupId], sender.userId)
            && sender.connectionId !in Targets(copies) && DistinctTargets(copies)
            && (forall d :: d in copies ==> d.reply == GroupMessage(groupId, sender.username, body) && !d.closing)
  {
    hide Copies, Targets, OnlineConnections, DistinctTargets, Indexes.Bijective, Users.OneToOne, NoEmptyGroup;
    var members := ListOf(MembersOf(chat.members, groupId));
    CopiesAreExact(chat.indexes, members, sender.userId, GroupMessage(groupId, sender.username, body));
    NotTheSender(chat.indexes, chat.members[groupId], sender);
  }

  /** A command that needs a login is run for the session on its connection. */
  lemma HandledInSession(chat: Chat, c: nat, command: Commands.Command, env: Environment, ids: nat)
    requires Sound(chat, ids) && chat.indexes.FindByConnection(c).Some?
    requires !command.Ping? && !command.Register? && !command.Login?
    ensures var sender := chat.indexes.FindByConnection(c).value;
            && Handle(chat, c, command, env) == HandleSession(chat, sender, command)
            && sender.connectionId == c && chat.indexes.Find(sender.userId) == Some(sender)
  {
    hide HandleSession;
    SenderOn(chat.indexes, c);
  }

  lemma AckAtTheEnd(chat: Chat, copies: seq<Delivery>, sender: Session, groupId: nat, body: string)
    requires IsMember(chat.members, groupId, sender.userId)
    requires copies == CopiesFor(chat, sender, groupId, body)
    requires DistinctTargets(copies) && sender.connectionId !in Targets(copies)
    ensures var out := HandleGroupChat(chat, sender, groupId, body).1;
            && |out| == |copies| + 1 && out[..|copies|] == copies && DistinctTargets(out)
            && out[|copies|] == Delivery(sender.connectionId, MessageAck(|chat.log| + 1, true, |copies| > 0), false)
  {
    hide Copies;
    AppendTarget(copies, Delivery(sender.connectionId, MessageAck(|chat.log| + 1, true, copies != []), false));
  }

  lemma SenderOn(indexes: Indexes, c: nat)
    requires indexes.Bijective() && indexes.FindByConnection(c).Some?
    ensures var sender := indexes.FindByConnection(c).value;
            sender.connectionId == c && sender.userId in indexes.byUser && indexes.byUser[sender.userId] == sender
  {
  }

  lemma NotTheSender(indexes: Indexes, members: set<nat>, sender: Session)
    requires indexes.Bijective() && sender.userId in indexes.byUser && indexes.byUser[sender.userId] == sender
    ensures sender.connectionId !in OnlineConnections(indexes, members, sender.userId)
  {
  }

  /** A direct message goes to the session of exactly the user the name is registered for, when there
      is one, and its ack says so. */
  lemma DirectMessageIsExact(chat: Chat, c: nat, to: string, body: string, env: Environment, ids: nat)
    requires Sound(chat, ids) && chat.indexes.FindByConnection(c).Some? && chat.users.FindByUsername(to).Some?
    ensures var (after, out) := Handle(chat, c, Commands.Direct(to, body), env);
            var sender, receiver := chat.indexes.FindByConnection(c).value, chat.users.FindByUsername(to).value;
            var session := chat.indexes.Find(receiver.id);
            && after == chat.(log := chat.log + [M.Message(M.DirectChat, sender.userId, receiver.id, body)])
            && out == (if session.Some? then
                         [Delivery(session.value.connectionId, DirectMessage(sender.username, body), false)]
                       else []) + [Delivery(c, MessageAck(|after.log|, true, session.Some?), false)]
  {
    hide Handle, Indexes.Bijective, Users.OneToOne, NoEmptyGroup, Within, Allocated;
    HandledInSession(chat, c, Commands.Direct(to, body), env, ids);
    SameUser(chat.indexes, chat.users, to);
  }

  lemma SameUser(indexes: Indexes, users: Users, username: string)
    requires indexes.Bijective() && users.OneToOne() && Named(indexes, users) && users.FindByUsername(username).Some?
    ensures indexes.FindByUsername(username) == indexes.Find(users.FindByUsername(username).value.id)
  {
  }

  ghost predicate Addressable(out: seq<Delivery>, ids: nat) {
    forall d :: d in out ==> 1 <= d.connectionId < ids
  }

  lemma HistoryAddressable(chat: Chat, sender: Session, command: Commands.Command, ids: nat)
    requires 1 <= sender.connectionId < ids && (command.History? || command.GroupHistory? || command.Unread?)
    ensures Addressable(HandleSession(chat, sender, command).1, ids)
  {
    hide Item, IsMember, Paging.HistoryPage, Paging.UnreadReply;
  }

  lemma GroupAddressable(chat: Chat, sender: Session, groupId: nat, body: string, ids: nat)
    requires Sound(chat, ids) && chat.indexes.Find(sender.userId) == Some(sender)
    ensures Addressable(HandleGroupChat(chat, sender, groupId, body).1, ids)
  {
    hide Copies, Users.OneToOne, NoEmptyGroup, DistinctTargets, Indexes.Bijective;
    if IsMember(chat.members, groupId, sender.userId) {
      CopiesOfMessage(chat, sender, groupId, body, ids);
      var copies := CopiesFor(chat, sender, groupId, body);
      forall d | d in copies ensures 1 <= d.connectionId < ids {
        assert d.connectionId in Targets(copies);
      }
    }
  }

  lemma SessionAddressable(chat: Chat, sender: Session, command: Commands.Command, ids: nat)
    requires Sound(chat, ids) && chat.indexes.Find(sender.userId) == Some(sender)
    ensures Addressable(HandleSession(chat, sender, command).1, ids)
  {
    hide HandleGroupChat, HandleUnread, HandleHistory, HandleGroupHistory, Joined, Left, IsMember, Users.OneToOne,
         NoEmptyGroup, Named, Within, Indexes.Bijective;
    match command
    case GroupChat(groupId, body) => GroupAddressable(chat, sender, groupId, body, ids);
    case Direct(to, body) =>
    case History(_, _, _) => HistoryAddressable(chat, sender, command, ids);
    case GroupHistory(_, _, _) => HistoryAddressable(chat, sender, command, ids);
    case Unread(_, _) => HistoryAddressable(chat, sender, command, ids);
    case _ =>
  }

  /** Whatever a line makes the server send goes to connection ids that were given out. */
  lemma AnswersAreAddressable(chat: Chat, c: nat, line: string, env: Environment, ids: nat)
    requires Sound(chat, ids) && 1 <= c < ids
    ensures Addressable(HandleLine(chat, c, line, env).1, ids)
  {
    hide Commands.ParseClientCommand, HandleSession, Sound, Users.Register, Users.VerifyLogin;
    var parsed := Commands.ParseClientCommand(line);
    if parsed.Ok? {
      var command := parsed.value;
      if !command.Ping? && !command.Register? && !command.Login? && chat.indexes.FindByConnection(c).Some? {
        HandledInSession(chat, c, command, env, ids);
        SessionAddressable(chat, chat.indexes.FindByConnection(c).value, command, ids);
      }
    }
  }
}
