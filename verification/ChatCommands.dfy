/** What each command does and answers, stated without its code: for every sound state, which relation
    changes, by what, and who is told what. */
module ChatCommands {
  import opened Wrappers
  import opened Json
  import opened Protocol
  import opened Sessions
  import opened UserStore
  import opened GroupMembers
  import opened Paging
  import opened Chat
  import opened ChatTheorems
  import opened ChatPaging
  import Commands
  import M = MessageStore
  import Passwords

  // ------------------------------------------------------------ accounts and sessions

  /** Why a registration is refused, the first reason that applies. */
  predicate RefusedFor(username: string, password: string, taken: bool, reason: string) {
    if username == "" || password == "" then reason == "username and password are required"
    else if |username| > 64 then reason == "username too long"
    else if taken then reason == "username already exists"
    else reason == "failed to hash password"
  }

  /** Register. It succeeds exactly on a connection without a session, for a new name of 1 to 64
      characters and a password that is not empty and can be hashed. Then the name has a record with that
      hash and an id nobody had; nothing else changes. Otherwise nothing changes, and the
      answer says why. */
  lemma RegisterIsExact(chat: Chat, c: nat, username: string, password: string, env: Environment, ids: nat)
    requires Sound(chat, ids)
    ensures var (after, out) := Handle(chat, c, Commands.Register(username, password), env);
            var hash := Passwords.HashPassword(env.kdf, password, env.salt);
            var inSession := exists u :: u in chat.indexes.byUser && chat.indexes.byUser[u].connectionId == c;
            var taken := username in chat.users.byUsername;
            && |out| == 1 && out[0].connectionId == c && !out[0].closing
            && (out[0].reply.RegisterSuccess? <==>
                  !inSession && 1 <= |username| <= 64 && password != "" && !taken && hash != "")
            && (if out[0].reply.RegisterSuccess? then
                  var id := out[0].reply.userId;
                  && chat.users.FindById(id).None?
                  && after.users.FindByUsername(username) == after.users.FindById(id) ==
                     Some(UserRecord(id, username, hash))
                  && (forall n :: n != username ==> after.users.FindByUsername(n) == chat.users.FindByUsername(n))
                  && after == chat.(users := after.users)
                else
                  && after == chat
                  && (if inSession then out[0].reply == ErrorReply("already logged in")
                      else out[0].reply.RegisterFailed? && RefusedFor(username, password, taken, out[0].reply.reason)))
  {
    hide Passwords.HashPassword, NoEmptyGroup, Within, Users.Register;
    var hash := Passwords.HashPassword(env.kdf, password, env.salt);
    OnConnection(chat.indexes, c);
    RegisterStep(chat.users, username, password, hash);
    var (users, result) := chat.users.Register(username, password, hash);
    assert RegisterOne(env.kdf, chat.users, Registration(username, password, env.salt)) == (users, result);
    assert result.Err? ==> chat.(users := users) == chat;
  }

  lemma RegisterStep(users: Users, username: string, password: string, hash: string)
    requires users.OneToOne() && users.nextId >= 1
    ensures var (after, result) := users.Register(username, password, hash);
            var taken := username in users.byUsername;
            && (result.Ok? <==> 1 <= |username| <= 64 && password != "" && !taken && hash != "")
            && (result.Ok? ==>
                  && users.FindById(result.value).None?
                  && after.FindByUsername(username) == after.FindById(result.value) ==
                     Some(UserRecord(result.value, username, hash))
                  && (forall n :: n != username ==> after.FindByUsername(n) == users.FindByUsername(n)))
            && (result.Err? ==> after == users && RefusedFor(username, password, taken, result.error))
  {
  }

  lemma OnConnection(indexes: Indexes, c: nat)
    requires indexes.Bijective()
    ensures indexes.FindByConnection(c).Some? <==>
            exists u :: u in indexes.byUser && indexes.byUser[u].connectionId == c
  {
  }

  /** Nobody is online with this name. */
  ghost predicate NameOffline(indexes: Indexes, username: string) {
    forall u :: u in indexes.byUser ==> indexes.byUser[u].username != username
  }

  /** Login. What it answers, and that it only adds the session it names. */
  lemma LoginIsExact(chat: Chat, c: nat, username: string, password: string, env: Environment, ids: nat)
    requires Sound(chat, ids)
    ensures var (after, out) := Handle(chat, c, Commands.Login(username, password), env);
            var user := chat.users.VerifyLogin(env.kdf, username, password);
            var inSession := exists u :: u in chat.indexes.byUser && chat.indexes.byUser[u].connectionId == c;
            && |out| == 1 && out[0].connectionId == c && !out[0].closing
            && (if !inSession && NameOffline(chat.indexes, username) && user.Some? then
                  && out[0].reply == LoginSuccess(user.value.id, username)
                  && after == chat.(indexes := after.indexes)
                  && after.indexes.byUser == chat.indexes.byUser[user.value.id := Session(user.value.id, c, username)]
                else
                  && after == chat
                  && out[0].reply == LoginFailed(
                       if inSession then "already logged in"
                       else if !NameOffline(chat.indexes, username) then "user already online"
                       else "invalid username or password"))
  {
    hide Users.VerifyLogin, Indexes.Bind, Users.OneToOne, NoEmptyGroup, Within, Named, Allocated;
    OnConnection(chat.indexes, c);
    OnName(chat.indexes, username);
    var user := chat.users.VerifyLogin(env.kdf, username, password);
    if user.Some? {
      VerifiedUser(chat.users, env.kdf, username, password);
      if chat.indexes.FindByConnection(c).None? {
        NobodyEvicted(chat.indexes, Session(user.value.id, c, username));
      }
    }
  }

  lemma OnName(indexes: Indexes, username: string)
    requires indexes.Bijective()
    ensures indexes.FindByUsername(username).None? <==> NameOffline(indexes, username)
  {
  }

  lemma NobodyEvicted(indexes: Indexes, session: Session)
    requires indexes.Bijective() && indexes.FindByConnection(session.connectionId).None?
    ensures indexes.Bind(session).byUser == indexes.byUser[session.userId := session]
  {
    hide Indexes.Bind;
    BoundUsers(indexes, session);
    OnConnection(indexes, session.connectionId);
  }

  /** Logout. It ends exactly the session of its connection, and its answer is the only kind that asks
      for the connection to be closed. */
  lemma LogoutIsExact(chat: Chat, c: nat, env: Environment, ids: nat)
    requires Sound(chat, ids) && chat.indexes.FindByConnection(c).Some?
    ensures var (after, out) := Handle(chat, c, Commands.Logout, env);
            && out == [Delivery(c, OkReply("logout"), true)]
            && after == chat.(indexes := after.indexes) && after.indexes.FindByConnection(c).None?
            && after.indexes.byUser == chat.indexes.byUser - {chat.indexes.FindByConnection(c).value.userId}
  {
    hide Indexes.UnbindConnection;
    HandledInSession(chat, c, Commands.Logout, env, ids);
    UnbindConnectionKeeps(chat.indexes, c);
    NoneOn(chat.indexes.UnbindConnection(c), c);
  }

  lemma NoneOn(indexes: Indexes, c: nat)
    requires indexes.Bijective() && forall u :: u in indexes.byUser ==> indexes.byUser[u].connectionId != c
    ensures indexes.FindByConnection(c).None?
  {
  }

  /** Some answer asks for its connection to be closed. */
  ghost predicate AsksToClose(out: seq<Delivery>) {
    exists d :: d in out && d.closing
  }

  /** Only the answer to a logout does, and only on a connection with a session. */
  lemma OnlyLogoutCloses(chat: Chat, c: nat, line: string, env: Environment, ids: nat)
    requires Sound(chat, ids)
    ensures AsksToClose(HandleLine(chat, c, line, env).1) <==>
            Commands.ParseClientCommand(line) == Ok(Commands.Logout) && chat.indexes.FindByConnection(c).Some?
  {
    hide Commands.ParseClientCommand, HandleSession, Users.Register, Users.VerifyLogin, Sound;
    var parsed, out := Commands.ParseClientCommand(line), HandleLine(chat, c, line, env).1;
    if parsed.Ok? && chat.indexes.FindByConnection(c).Some? {
      var sender := chat.indexes.FindByConnection(c).value.(connectionId := c);
      SessionCloses(chat, sender, parsed.value, ids);
    }
  }

  lemma SessionCloses(chat: Chat, sender: Session, command: Commands.Command, ids: nat)
    requires Sound(chat, ids)
    ensures AsksToClose(HandleSession(chat, sender, command).1) <==> command.Logout?
  {
    hide Copies, Items, Joined, Left, IsMember, Indexes.Bijective, Users.OneToOne, Indexes.UnbindConnection,
         HistoryPage, UnreadReply, NoEmptyGroup, Within;
    if command.GroupChat? {
      CopiesAreExact(chat.indexes, ListOf(MembersOf(chat.members, command.groupId)), sender.userId,
                     GroupMessage(command.groupId, sender.username, command.body));
    }
    if command.Logout? {
      assert HandleSession(chat, sender, command).1[0].closing;
    }
    forall found: seq<M.StoredMessage> ensures !AsksToClose(Items(chat.users, sender.connectionId, found)) {
      ItemsStayOpen(chat.users, sender.connectionId, found);
    }
  }

  lemma ItemsStayOpen(users: Users, c: nat, found: seq<M.StoredMessage>)
    ensures !AsksToClose(Items(users, c, found))
  {
    hide Item;
  }

  /** Lines that are refused before any handler runs, and pings, change nothing. */
  lemma RefusalsAreExact(chat: Chat, c: nat, line: string, env: Environment)
    ensures var parsed := Commands.ParseClientCommand(line);
            match parsed
            case Err(error) => HandleLine(chat, c, line, env) == (chat, [Delivery(c, ErrorReply(error), false)])
            case Ok(command) =>
              && HandleLine(chat, c, line, env) == Handle(chat, c, command, env)
              && (command.Ping? ==> Handle(chat, c, command, env) == (chat, [Delivery(c, Pong, false)]))
              && (!command.Ping? && !command.Register? && !command.Login? && chat.indexes.FindByConnection(c).None? ==>
                    Handle(chat, c, command, env) == (chat, [Delivery(c, ErrorReply("please login first"), false)]))
  {
    hide Commands.ParseClientCommand, HandleSession, HandleRegister, HandleLogin;
  }

  // ------------------------------------------------------------ groups

  /** Exactly the membership of `userId` in `groupId` was added. */
  ghost predicate Added(before: Groups, after: Groups, groupId: nat, userId: nat) {
    forall g, u :: IsMember(after, g, u) <==> IsMember(before, g, u) || (g == groupId && u == userId)
  }

  /** Exactly the membership of `userId` in `groupId` was removed. */
  ghost predicate Removed(before: Groups, after: Groups, groupId: nat, userId: nat) {
    forall g, u :: IsMember(after, g, u) <==> IsMember(before, g, u) && !(g == groupId && u == userId)
  }

  /** Join. The sender becomes a member of the group named, for both maps, and nothing else happens. */
  lemma JoinIsExact(chat: Chat, c: nat, groupId: nat, env: Environment, ids: nat)
    requires Sound(chat, ids) && chat.indexes.FindByConnection(c).Some?
    ensures var (after, out) := Handle(chat, c, Commands.JoinGroup(groupId), env);
            var sender := chat.indexes.FindByConnection(c).value;
            && Added(chat.members, after.members, groupId, sender.userId)
            && Added(chat.online, after.online, groupId, sender.userId)
            && after == chat.(members := after.members, online := after.online)
            && out == [Delivery(c, OkReply("joined group " + Decimal(groupId)), false)]
  {
    hide Joined, IsMember, Decimal;
    var sender := chat.indexes.FindByConnection(c).value;
    HandledInSession(chat, c, Commands.JoinGroup(groupId), env, ids);
    GroupsKeepNonEmpty(chat.members, groupId, sender.userId);
    GroupsKeepNonEmpty(chat.online, groupId, sender.userId);
  }

  /** Leave. A member stops being one, for both maps; of anyone else the command is refused. */
  lemma LeaveIsExact(chat: Chat, c: nat, groupId: nat, env: Environment, ids: nat)
    requires Sound(chat, ids) && chat.indexes.FindByConnection(c).Some?
    ensures var (after, out) := Handle(chat, c, Commands.LeaveGroup(groupId), env);
            var sender := chat.indexes.FindByConnection(c).value;
            if IsMember(chat.members, groupId, sender.userId) then
              && Removed(chat.members, after.members, groupId, sender.userId)
              && Removed(chat.online, after.online, groupId, sender.userId)
              && after == chat.(members := after.members, online := after.online)
              && out == [Delivery(c, OkReply("left group " + Decimal(groupId)), false)]
            else
              after == chat && out == [Delivery(c, ErrorReply("not a member of this group"), false)]
  {
    hide Left, IsMember, Decimal;
    var sender := chat.indexes.FindByConnection(c).value;
    HandledInSession(chat, c, Commands.LeaveGroup(groupId), env, ids);
    GroupsKeepNonEmpty(chat.members, groupId, sender.userId);
    GroupsKeepNonEmpty(chat.online, groupId, sender.userId);
  }

  /** Create. A group with a name gets an id, and its creator as a member, for both maps. */
  lemma CreateIsExact(chat: Chat, c: nat, name: string, env: Environment, ids: nat)
    requires Sound(chat, ids) && chat.indexes.FindByConnection(c).Some?
    ensures var (after, out) := Handle(chat, c, Commands.CreateGroup(name), env);
            var sender := chat.indexes.FindByConnection(c).value;
            && |out| == 1 && out[0].connectionId == c && !out[0].closing
            && (if name == "" then
                  after == chat && out[0].reply == ErrorReply("group name is required")
                else
                  var id := out[0].reply.groupId;
                  && out[0].reply == CreateGroupSuccess(id, name)
                  && Added(chat.members, after.members, id, sender.userId)
                  && Added(chat.online, after.online, id, sender.userId)
                  && after == chat.(members := after.members, online := after.online, nextGroup := id + 1))
  {
    hide Joined, IsMember;
    var sender := chat.indexes.FindByConnection(c).value;
    HandledInSession(chat, c, Commands.CreateGroup(name), env, ids);
    GroupsKeepNonEmpty(chat.members, chat.nextGroup, sender.userId);
    GroupsKeepNonEmpty(chat.online, chat.nextGroup, sender.userId);
  }

  /** The id a step gives to a new group. */
  ghost function GroupMade(w: World, step: Step): Option<nat> {
    if !step.Line? then None
    else
      var out := HandleLine(w.chat, step.connectionId, step.line, step.env).1;
      if |out| == 1 && out[0].reply.CreateGroupSuccess? then Some(out[0].reply.groupId) else None
  }

  lemma StepGroups(w: World, step: Step)
    ensures Advance(w, step).chat.nextGroup >= w.chat.nextGroup
    ensures GroupMade(w, step).Some? ==>
              GroupMade(w, step).value == w.chat.nextGroup && Advance(w, step).chat.nextGroup == w.chat.nextGroup + 1
  {
    hide Commands.ParseClientCommand, HandleSession, HandleRegister, HandleLogin;
    match step
    case Line(c, line, env) =>
      EarlyCommandsMakeNoGroup(w.chat, c, env);
      var parsed := Commands.ParseClientCommand(line);
      if parsed.Ok? && w.chat.indexes.FindByConnection(c).Some? {
        SessionGroups(w.chat, w.chat.indexes.FindByConnection(c).value.(connectionId := c), parsed.value);
      }
    case _ =>
  }

  lemma EarlyCommandsMakeNoGroup(chat: Chat, c: nat, env: Environment)
    ensures forall username, password ::
              var (after, out) := HandleRegister(chat, c, username, password, env);
              after.nextGroup == chat.nextGroup && out != [] && !out[0].reply.CreateGroupSuccess?
    ensures forall username, password ::
              var (after, out) := HandleLogin(chat, c, username, password, env);
              after.nextGroup == chat.nextGroup && out != [] && !out[0].reply.CreateGroupSuccess?
  {
    hide Users.Register, Users.VerifyLogin, Indexes.Bind;
  }

  lemma SessionGroups(chat: Chat, sender: Session, command: Commands.Command)
    ensures var (after, out) := HandleSession(chat, sender, command);
            && after.nextGroup >= chat.nextGroup
            && (|out| == 1 && out[0].reply.CreateGroupSuccess? ==>
                  out[0].reply.groupId == chat.nextGroup && after.nextGroup == chat.nextGroup + 1)
  {
    hide Joined, IsMember, Left, Copies, Items, Indexes.UnbindConnection;
  }

  lemma {:induction false} GroupsCount(w: World, steps: seq<Step>, i: nat)
    requires i <= |steps|
    ensures AdvanceAll(w, steps).chat.nextGroup >= AdvanceAll(w, steps[..i]).chat.nextGroup
    decreases |steps|
  {
    hide Advance;
    if i == |steps| {
      assert steps[..i] == steps;
    } else {
      var front := steps[..|steps| - 1];
      assert front[..i] == steps[..i];
      GroupsCount(w, front, i);
      StepGroups(AdvanceAll(w, front), steps[|steps| - 1]);
    }
  }

  /** Over runs: a new group gets an id that no group created before it got, restarts included. */
  lemma GroupIdsAreNew(w: World, steps: seq<Step>, i: nat, j: nat)
    requires i < j < |steps|
    requires GroupMade(AdvanceAll(w, steps[..i]), steps[i]).Some?
    requires GroupMade(AdvanceAll(w, steps[..j]), steps[j]).Some?
    ensures GroupMade(AdvanceAll(w, steps[..i]), steps[i]).value < GroupMade(AdvanceAll(w, steps[..j]), steps[j]).value
  {
    hide Advance, GroupMade;
    StepGroups(AdvanceAll(w, steps[..i]), steps[i]);
    StepGroups(AdvanceAll(w, steps[..j]), steps[j]);
    assert steps[..j][..i + 1] == steps[..i + 1] && steps[..i + 1][..i] == steps[..i];
    GroupsCount(w, steps[..j], i + 1);
  }

  // ------------------------------------------------------------ messages

  /** Messages to a group one is not in, to a name nobody has, and histories of such, are refused and not
      stored. */
  lemma StrangersAreRefused(chat: Chat, c: nat, command: Commands.Command, env: Environment, ids: nat)
    requires Sound(chat, ids) && chat.indexes.FindByConnection(c).Some?
    ensures var userId := chat.indexes.FindByConnection(c).value.userId;
            var refused := reason => (chat, [Delivery(c, ErrorReply(reason), false)]);
            && ((command.GroupChat? || command.GroupHistory?) && !IsMember(chat.members, command.groupId, userId) ==>
                  Handle(chat, c, command, env) == refused("not a member of this group"))
            && (command.Direct? && command.to !in chat.users.byUsername ==>
                  Handle(chat, c, command, env) == refused("receiver not found"))
            && (command.History? && command.peer !in chat.users.byUsername ==>
                  Handle(chat, c, command, env) == refused("peer not found"))
  {
    hide IsMember, Copies, HistoryAnswer, Indexes.Bijective, Users.OneToOne, NoEmptyGroup, Within;
    if !command.Ping? && !command.Register? && !command.Login? {
      HandledInSession(chat, c, command, env, ids);
    }
  }

  /** `name` is the registered name of the user with this id; of an id without a user it is the decimal. */
  ghost predicate IsNameOf(users: Users, id: nat, name: string) {
    if exists n :: n in users.byUsername && users.byUsername[n].id == id then
      users.FindByUsername(name).Some? && users.FindByUsername(name).value.id == id
    else name == Decimal(id)
  }

  lemma NameOfIsName(users: Users, id: nat)
    requires users.OneToOne()
    ensures IsNameOf(users, id, NameOf(users, id))
  {
    hide Decimal;
  }

  /** The delivery shows a stored message to connection `c`: its id, type, text and time, its sender by name,
      and whom it was for, a user by name or a group by number. */
  ghost predicate Shows(users: Users, c: nat, m: M.StoredMessage, d: Delivery) {
    && d.connectionId == c && !d.closing && d.reply.HistoryItem?
    && d.reply.messageId == m.id && d.reply.body == m.message.body && d.reply.createdAt == m.createdAt
    && IsNameOf(users, m.message.senderId, d.reply.from)
    && (if m.message.kind.GroupChat? then
          d.reply.chatType == "gc" && d.reply.to == Decimal(m.message.receiverId)
        else
          d.reply.chatType == "dm" && IsNameOf(users, m.message.receiverId, d.reply.to))
  }

  lemma ItemsShow(users: Users, c: nat, found: seq<M.StoredMessage>)
    requires users.OneToOne()
    ensures |Items(users, c, found)| == |found|
    ensures forall i :: 0 <= i < |found| ==> Shows(users, c, found[i], Items(users, c, found)[i])
  {
    hide IsNameOf, NameOf, Decimal, Users.OneToOne;
    forall i | 0 <= i < |found| ensures Shows(users, c, found[i], Items(users, c, found)[i]) {
      NameOfIsName(users, found[i].message.senderId);
      NameOfIsName(users, found[i].message.receiverId);
    }
  }

  /** The newest messages of a conversation below a cursor: at most as many as asked for, and nothing that
      matches lies between them and the cursor. */
  ghost predicate IsNewest(items: seq<M.StoredMessage>, log: seq<M.Message>, q: M.Query, beforeId: nat, limit: nat) {
    var end := if beforeId == 0 || beforeId > |log| then |log| else beforeId - 1;
    var start := if |items| < NormalizeHistoryLimit(limit) then 0 else items[0].id - 1;
    && |items| <= NormalizeHistoryLimit(limit)
    && 0 <= start <= end && M.Exactly(items, log, q, start, end)
  }

  lemma PageIsNewest(log: seq<M.Message>, q: M.Query, limit: nat, beforeId: nat)
    ensures var page := HistoryPage(log, q, limit, beforeId);
            && IsNewest(page.items, log, q, beforeId, limit)
            && (page.hasMore <==> |page.items| == NormalizeHistoryLimit(limit))
            && page.next == if page.items == [] then 0 else page.items[0].id
  {
    hide M.Matching, M.Exactly, M.Page, M.Reversed, M.Last, HistoryPage, NormalizeHistoryLimit;
    var end, n := M.Upto(log, beforeId), NormalizeHistoryLimit(limit);
    PageShape(log, q, limit, beforeId);
    HistoryItems(log, q, limit, beforeId);
    if |M.Matching(log, q, 0, end)| >= n {
      LastAreNewest(log, q, end, n);
    } else {
      AllAreNewest(log, q, end, n);
    }
  }

  lemma PageShape(log: seq<M.Message>, q: M.Query, limit: nat, beforeId: nat)
    ensures var page := HistoryPage(log, q, limit, beforeId);
            && (page.hasMore <==> |page.items| == NormalizeHistoryLimit(limit))
            && page.next == if page.items == [] then 0 else page.items[0].id
  {
    hide M.Matching, M.Page, M.Reversed;
  }

  lemma AllAreNewest(log: seq<M.Message>, q: M.Query, end: nat, n: nat)
    requires end <= |log| && |M.Matching(log, q, 0, end)| < n
    ensures var items := M.Last(M.Matching(log, q, 0, end), n);
            |items| < n && M.Exactly(items, log, q, 0, end)
  {
    hide M.Matching, M.Exactly;
    M.MatchingIsExact(log, q, 0, end);
  }

  /** The last `n` matches are all matches from the first of them on. */
  lemma LastAreNewest(log: seq<M.Message>, q: M.Query, end: nat, n: nat)
    requires end <= |log| && 1 <= n <= |M.Matching(log, q, 0, end)|
    ensures var items := M.Last(M.Matching(log, q, 0, end), n);
            |items| == n && 1 <= items[0].id <= end && M.Exactly(items, log, q, items[0].id - 1, end)
  {
    hide M.Matching, M.Exactly;
    var found := M.Matching(log, q, 0, end);
    var at := |found| - n;
    FoundBefore(log, q, end, at);
    M.MatchingSplits(log, q, 0, found[at].id - 1, end);
    M.MatchingIsExact(log, q, found[at].id - 1, end);
    assert found[at..] == M.Matching(log, q, found[at].id - 1, end);
  }

  /** History. An accepted request is answered on its own connection with the newest matching messages below
      the cursor, oldest first, each shown in full; then with whether the page is full and its lowest id. */
  lemma HistoryIsExact(chat: Chat, c: nat, target: Target, limit: nat, beforeId: nat, env: Environment, ids: nat)
    requires Sound(chat, ids) && QueryOf(chat, c, target).Some?
    ensures var (after, out) := Handle(chat, c, Request(target, limit, beforeId), env);
            var q, last := QueryOf(chat, c, target).value, |out| - 1;
            && after == chat && last >= 0
            && exists items: seq<M.StoredMessage> ::
                 && IsNewest(items, chat.log, q, beforeId, limit) && |items| == last
                 && (forall i :: 0 <= i < last ==> Shows(chat.users, c, items[i], out[i]))
                 && out[last] == Delivery(c, HistoryEnd(last == NormalizeHistoryLimit(limit),
                                                        if last == 0 then 0 else items[0].id), false)
  {
    hide Handle, QueryOf, Request, HistoryPage, Items, Shows, Sound, IsNewest;
    var q := QueryOf(chat, c, target).value;
    var page := HistoryPage(chat.log, q, limit, beforeId);
    RequestIsAnswered(chat, c, target, limit, beforeId, env);
    PageIsNewest(chat.log, q, limit, beforeId);
    assert chat.users.OneToOne() by { SoundUsers(chat, ids); }
    ItemsShow(chat.users, c, page.items);
  }

  lemma SoundUsers(chat: Chat, ids: nat)
    requires Sound(chat, ids)
    ensures chat.users.OneToOne()
  {
  }

  /** Which messages a history request is about: with a peer, the direct messages between the two registered users,
      whichever of them sent it; of a group, its messages. */
  lemma HistoryIsAbout(chat: Chat, c: nat, target: Target, m: M.Message)
    requires QueryOf(chat, c, target).Some?
    ensures var userId := chat.indexes.FindByConnection(c).value.userId;
            M.Matches(QueryOf(chat, c, target).value, m) <==>
              match target
              case WithPeer(peer) =>
                m.kind.DirectChat? && {m.senderId, m.receiverId} == {userId, chat.users.FindByUsername(peer).value.id}
              case InGroup(groupId) => m.kind.GroupChat? && m.receiverId == groupId
    ensures target.InGroup? ==> IsMember(chat.members, target.groupId, chat.indexes.FindByConnection(c).value.userId)
  {
    if target.WithPeer? {
      PairsAsSets(m.senderId, m.receiverId, chat.indexes.FindByConnection(c).value.userId,
                  chat.users.FindByUsername(target.peer).value.id);
    }
  }

  lemma PairsAsSets(a: nat, b: nat, c: nat, d: nat)
    ensures {a, b} == {c, d} <==> (a == c && b == d) || (a == d && b == c)
  {
    if {a, b} == {c, d} {
      assert a in {c, d} && b in {c, d} && c in {a, b} && d in {a, b};
    }
  }

  /** The oldest unread messages above a cursor. */
  ghost predicate IsOldest(items: seq<M.StoredMessage>, log: seq<M.Message>, q: M.Query, lastSeen: nat, limit: nat) {
    var start := if lastSeen < |log| then lastSeen else |log|;
    var end := if |items| < NormalizeHistoryLimit(limit) then |log| else items[|items| - 1].id;
    && |items| <= NormalizeHistoryLimit(limit)
    && start <= end <= |log| && M.Exactly(items, log, q, start, end)
  }

  lemma PageIsOldest(log: seq<M.Message>, q: M.Query, limit: nat, lastSeen: nat)
    ensures var page := UnreadReply(log, q, limit, lastSeen);
            && IsOldest(page.items, log, q, lastSeen, limit)
            && (page.hasMore <==> |page.items| == NormalizeHistoryLimit(limit))
            && page.next == if page.items == [] then lastSeen else page.items[|page.items| - 1].id
  {
    hide M.Matching, M.Exactly;
    var page, start, n := UnreadReply(log, q, limit, lastSeen), M.Least(lastSeen, |log|), NormalizeHistoryLimit(limit);
    var found := M.Matching(log, q, start, |log|);
    if |found| >= n {
      FoundUpTo(log, q, start, n - 1);
      M.MatchingIsExact(log, q, start, found[n - 1].id);
    } else {
      assert page.items == found;
      M.MatchingIsExact(log, q, start, |log|);
    }
  }

  /** Unread. Answered with the oldest messages above the cursor that are to the user, or by others to one of
      the groups the user is in. */
  lemma UnreadIsExact(chat: Chat, c: nat, limit: nat, lastSeen: nat, env: Environment, ids: nat)
    requires Sound(chat, ids) && UnreadOf(chat, c).Some?
    ensures var (after, out) := Handle(chat, c, Commands.Unread(lastSeen, limit), env);
            var q, last := UnreadOf(chat, c).value, |out| - 1;
            && after == chat && last >= 0
            && exists items: seq<M.StoredMessage> ::
                 && IsOldest(items, chat.log, q, lastSeen, limit) && |items| == last
                 && (forall i :: 0 <= i < last ==> Shows(chat.users, c, items[i], out[i]))
                 && out[last] == Delivery(c, UnreadEnd(last == NormalizeHistoryLimit(limit),
                                                       if last == 0 then lastSeen else items[last - 1].id), false)
  {
    hide Handle, UnreadOf, UnreadReply, Items, Shows, Sound, IsOldest;
    var q := UnreadOf(chat, c).value;
    var page := UnreadReply(chat.log, q, limit, lastSeen);
    UnreadIsAnswered(chat, c, limit, lastSeen, env, q);
    PageIsOldest(chat.log, q, limit, lastSeen);
    assert chat.users.OneToOne() by { SoundUsers(chat, ids); }
    ItemsShow(chat.users, c, page.items);
  }

  /** Which messages those are, in terms of memberships. */
  lemma UnreadIsAbout(chat: Chat, c: nat, m: M.Message)
    requires UnreadOf(chat, c).Some?
    ensures var userId := chat.indexes.FindByConnection(c).value.userId;
            M.Matches(UnreadOf(chat, c).value, m) <==>
              || (m.kind.DirectChat? && m.receiverId == userId)
              || (m.kind.GroupChat? && m.senderId != userId && IsMember(chat.members, m.receiverId, userId))
  {
    var userId := chat.indexes.FindByConnection(c).value.userId;
    var groups := ListOf(GroupsOf(chat.members, userId));
    assert m.receiverId in groups <==> m.receiverId in Elements(groups);
  }
}
