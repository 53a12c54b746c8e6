/** The chat service over its session manager and stores, branch by branch as the source runs it, each
    against the command machine. */
module ChatService {
  import opened Wrappers
  import opened Json
  import opened Protocol
  import opened Sessions
  import opened UserStore
  import opened GroupMembers
  import opened Paging
  import opened Chat
  import Commands
  import M = MessageStore
  import Passwords
  import ServerState

  /** The payloads the network layer is given to send. */
  function Rendered(out: seq<Delivery>): seq<ServerState.Outbound> {
    seq(|out|, i requires 0 <= i < |out| => ServerState.Outbound(out[i].connectionId, Format(out[i].reply), out[i].closing))
  }

  lemma ItemsExtend(users: Users, c: nat, found: seq<M.StoredMessage>, i: nat)
    requires i < |found|
    ensures Items(users, c, found[..i + 1]) == Items(users, c, found[..i]) + [Delivery(c, Item(users, found[i]), false)]
  {
    hide Item;
  }

  lemma NoCopies(indexes: Indexes, senderId: nat, reply: Reply)
    ensures Copies(indexes, [], senderId, reply) == []
  {
  }

  lemma CopiesExtend(indexes: Indexes, members: seq<nat>, senderId: nat, reply: Reply, i: nat)
    requires i < |members|
    ensures Copies(indexes, members[..i + 1], senderId, reply) ==
            Copies(indexes, members[..i], senderId, reply) +
            if members[i] != senderId && indexes.Find(members[i]).Some? then
              Answer(indexes.Find(members[i]).value.connectionId, reply)
            else []
  {
    assert members[..i + 1][..i] == members[..i];
  }

  lemma PageIsReversed(log: seq<M.Message>, q: M.Query, asked: nat, beforeId: nat)
    ensures var page, n := HistoryPage(log, q, asked, beforeId), NormalizeHistoryLimit(asked);
            && page.items == M.Reversed(M.Page(log, q, n, beforeId)) && page.hasMore == (|page.items| == n)
            && page.next == if page.items == [] then 0 else page.items[0].id
  {
    hide M.Page, M.Reversed;
  }

  lemma UnreadPageIs(log: seq<M.Message>, q: M.Query, asked: nat, lastSeen: nat)
    ensures var page, n := UnreadReply(log, q, asked, lastSeen), NormalizeHistoryLimit(asked);
            && page.items == M.UnreadPage(log, q, lastSeen, n) && page.hasMore == (|page.items| == n)
            && page.next == if page.items == [] then lastSeen else page.items[|page.items| - 1].id
  {
    hide M.UnreadPage;
  }

  /** Going through a page in id order, the first id is the lowest. */
  lemma FirstIsLowest(log: seq<M.Message>, q: M.Query, limit: nat, beforeId: nat)
    ensures var items := HistoryPage(log, q, limit, beforeId).items;
            forall i :: 0 <= i < |items| ==> 0 < items[0].id <= items[i].id
  {
    hide HistoryPage, M.Matching, M.Matches, M.Upto;
    HistoryItems(log, q, limit, beforeId);
    M.MatchingIsExact(log, q, 0, M.Upto(log, beforeId));
  }

  /** Going through the unread messages, each id is the highest so far. */
  lemma LastIsHighest(log: seq<M.Message>, q: M.Query, limit: nat, lastSeen: nat)
    ensures var items := UnreadReply(log, q, limit, lastSeen).items;
            && (forall i :: 0 <= i < |items| ==> lastSeen < items[i].id)
            && (forall i, j :: 0 <= i < j < |items| ==> items[i].id < items[j].id)
  {
    hide M.Matching, M.Matches;
    M.MatchingIsExact(log, q, M.Least(lastSeen, |log|), |log|);
  }

  class ChatService {
    const sessions: SessionManager
    const messageStore: M.MessageStore
    const userStore: UserStore
    const groupMemberStore: GroupMemberStore
    var nextGroupId: nat

    ghost function State(): Chat
      reads this, sessions, messageStore, userStore, groupMemberStore
    {
      Chat(sessions.State(), sessions.groupMembers, userStore.State(), groupMemberStore.memoryMembers,
           messageStore.messages, nextGroupId)
    }

    constructor (sessions: SessionManager, messageStore: M.MessageStore, userStore: UserStore,
                 groupMemberStore: GroupMemberStore)
      ensures this.sessions == sessions && this.messageStore == messageStore
      ensures this.userStore == userStore && this.groupMemberStore == groupMemberStore
      ensures nextGroupId == 1
    {
      this.sessions, this.messageStore := sessions, messageStore;
      this.userStore, this.groupMemberStore := userStore, groupMemberStore;
      nextGroupId := 1;
    }

    method HandleClientLine(c: nat, line: string, salt: Option<seq<Passwords.Byte>>)
      returns (out: seq<ServerState.Outbound>)
      modifies this, sessions, messageStore, userStore, groupMemberStore
      ensures var (after, deliveries) := HandleLine(old(State()), c, line, Environment(userStore.kdf, salt));
              State() == after && out == Rendered(deliveries)
    {
      var parsed := Commands.ParseClientCommand(line);
      if parsed.Err? {
        return Rendered(Answer(c, ErrorReply(parsed.error)));
      }
      var command := parsed.value;
      var deliveries: seq<Delivery>;
      if command.Ping? {
        deliveries := Answer(c, Pong);
      } else if command.Register? {
        deliveries := RegisterUser(c, command.username, command.password, salt);
      } else if command.Login? {
        deliveries := Login(c, command.username, command.password, salt);
      } else {
        var sender := sessions.FindByConnection(c);
        if sender.None? {
          deliveries := Answer(c, ErrorReply("please login first"));
        } else {
          deliveries := RunInSession(c, sender.value, command);
        }
      }
      return Rendered(deliveries);
    }

    method RegisterUser(c: nat, username: string, password: string, salt: Option<seq<Passwords.Byte>>)
      returns (out: seq<Delivery>)
      modifies userStore
      ensures (State(), out) == HandleRegister(old(State()), c, username, password, Environment(userStore.kdf, salt))
    {
      var session := sessions.FindByConnection(c);
      if session.Some? {
        return Answer(c, ErrorReply("already logged in"));
      }
      var result := userStore.RegisterUser(username, password, salt);
      match result
      case Err(reason) => return Answer(c, RegisterFailed(reason));
      case Ok(id) => return Answer(c, RegisterSuccess(id));
    }

    method Login(c: nat, username: string, password: string, ghost salt: Option<seq<Passwords.Byte>>)
      returns (out: seq<Delivery>)
      modifies sessions
      ensures (State(), out) == HandleLogin(old(State()), c, username, password, Environment(userStore.kdf, salt))
    {
      var session := sessions.FindByConnection(c);
      if session.Some? {
        return Answer(c, LoginFailed("already logged in"));
      }
      var online := sessions.FindByUsername(username);
      if online.Some? {
        return Answer(c, LoginFailed("user already online"));
      }
      var user := userStore.VerifyLogin(username, password);
      if user.None? {
        return Answer(c, LoginFailed("invalid username or password"));
      }
      sessions.Bind(Session(user.value.id, c, user.value.username));
      return Answer(c, LoginSuccess(user.value.id, user.value.username));
    }

    method RunInSession(c: nat, sender: Session, command: Commands.Command) returns (out: seq<Delivery>)
      modifies this, sessions, messageStore, groupMemberStore
      ensures (State(), out) == HandleSession(old(State()), sender.(connectionId := c), command)
    {
      hide HandleGroupChat, HandleHistory, HandleGroupHistory, HandleUnread, HandleDirect, HandleCreateGroup,
           Joined, Left, IsMember;
      match command
      case Logout =>
        sessions.UnbindConnection(c);
        out := [Delivery(c, OkReply("logout"), true)];
      case CreateGroup(name) => out := CreateGroup(c, sender, name);
      case JoinGroup(groupId) =>
        var result := groupMemberStore.JoinGroup(groupId, sender.userId);
        sessions.JoinGroup(groupId, sender.userId);
        out := Answer(c, OkReply("joined group " + Decimal(groupId)));
      case LeaveGroup(groupId) =>
        var result := groupMemberStore.LeaveGroup(groupId, sender.userId);
        if !result.success {
          return Answer(c, ErrorReply(result.reason));
        }
        sessions.LeaveGroup(groupId, sender.userId);
        out := Answer(c, OkReply("left group " + Decimal(groupId)));
      case GroupChat(groupId, body) => out := SendToGroup(c, sender, groupId, body);
      case GroupHistory(groupId, limit, beforeId) => out := ShowGroupHistory(c, sender, groupId, limit, beforeId);
      case History(peer, limit, beforeId) => out := ShowHistory(c, sender, peer, limit, beforeId);
      case Direct(to, body) => out := SendDirect(c, sender, to, body);
      case Unread(lastSeen, limit) => out := ShowUnread(c, sender, lastSeen, limit);
      case _ => out := Answer(c, ErrorReply("unsupported command"));
    }

    method CreateGroup(c: nat, sender: Session, name: string) returns (out: seq<Delivery>)
      modifies this, sessions, groupMemberStore
      ensures (State(), out) == HandleCreateGroup(old(State()), sender.(connectionId := c), name)
    {
      if name == "" {
        return Answer(c, ErrorReply("group name is required"));
      }
      var id := nextGroupId;
      nextGroupId := nextGroupId + 1;
      var joined := groupMemberStore.JoinGroup(id, sender.userId);
      sessions.JoinGroup(id, sender.userId);
      return Answer(c, CreateGroupSuccess(id, name));
    }

    method SendToGroup(c: nat, sender: Session, groupId: nat, body: string) returns (out: seq<Delivery>)
      modifies messageStore
      ensures (State(), out) == HandleGroupChat(old(State()), sender.(connectionId := c), groupId, body)
    {
      var member := groupMemberStore.IsGroupMember(groupId, sender.userId);
      if !member {
        return Answer(c, ErrorReply("not a member of this group"));
      }
      var stored := messageStore.Append(M.Message(M.GroupChat, sender.userId, groupId, body));
      var members := groupMemberStore.LoadGroupMembers(groupId);
      ListIsUnique(members, ListOf(MembersOf(groupMemberStore.memoryMembers, groupId)));
      var formatted := GroupMessage(groupId, sender.username, body);
      var delivered;
      out, delivered := FanOut(members, sender.userId, formatted);
      out := out + [Delivery(c, MessageAck(stored.id, true, delivered), false)];
    }

    method FanOut(members: seq<nat>, senderId: nat, formatted: Reply) returns (out: seq<Delivery>, delivered: bool)
      ensures out == Copies(sessions.State(), members, senderId, formatted) && delivered == (out != [])
    {
      hide Copies;
      out, delivered := [], false;
      NoCopies(sessions.State(), senderId, formatted);
      assert members[..0] == [];
      for i := 0 to |members|
        invariant out == Copies(sessions.State(), members[..i], senderId, formatted)
        invariant delivered == (out != [])
      {
        CopiesExtend(sessions.State(), members, senderId, formatted, i);
        if members[i] == senderId {
          continue;
        }
        var session := sessions.Find(members[i]);
        if session.Some? {
          out := out + [Delivery(session.value.connectionId, formatted, false)];
          delivered := true;
        }
      }
      assert members[..|members|] == members;
    }

    method SendDirect(c: nat, sender: Session, to: string, body: string) returns (out: seq<Delivery>)
      modifies messageStore
      ensures (State(), out) == HandleDirect(old(State()), sender.(connectionId := c), to, body)
    {
      var receiver := userStore.FindUserByUsername(to);
      if receiver.None? {
        return Answer(c, ErrorReply("receiver not found"));
      }
      var stored := messageStore.Append(M.Message(M.DirectChat, sender.userId, receiver.value.id, body));
      var session := sessions.FindByUsername(to);
      if session.None? {
        return Answer(c, MessageAck(stored.id, true, false));
      }
      out := Answer(session.value.connectionId, DirectMessage(sender.username, body)) +
             Answer(c, MessageAck(stored.id, true, true));
    }

    method NameFor(id: nat) returns (name: string)
      ensures name == NameOf(userStore.State(), id)
    {
      var user := userStore.FindUserById(id);
      name := if user.Some? then user.value.username else Decimal(id);
    }

    method ItemFor(m: M.StoredMessage) returns (reply: Reply)
      ensures reply == Item(userStore.State(), m)
    {
      var from := NameFor(m.message.senderId);
      if m.message.kind == M.GroupChat {
        return HistoryItem(m.id, "gc", from, Decimal(m.message.receiverId), m.message.body, m.createdAt);
      }
      var to := NameFor(m.message.receiverId);
      return HistoryItem(m.id, "dm", from, to, m.message.body, m.createdAt);
    }

    /** The page arrives newest first; it is reversed, and the lowest id becomes the cursor. */
    method ShowPage(c: nat, page: seq<M.StoredMessage>, limit: nat,
                    ghost q: M.Query, ghost asked: nat, ghost beforeId: nat)
      returns (out: seq<Delivery>)
      requires limit == NormalizeHistoryLimit(asked) && page == M.Page(messageStore.messages, q, limit, beforeId)
      ensures out == HistoryAnswer(State(), c, q, asked, beforeId)
    {
      hide Item, HistoryPage, M.Page, M.Reversed;
      ghost var answer := HistoryPage(messageStore.messages, q, asked, beforeId);
      var history := M.Reversed(page);
      PageIsReversed(messageStore.messages, q, asked, beforeId);
      FirstIsLowest(messageStore.messages, q, asked, beforeId);
      var nextBeforeId := 0;
      out := [];
      for i := 0 to |history|
        invariant nextBeforeId == if i == 0 then 0 else history[0].id
        invariant out == Items(userStore.State(), c, history[..i])
      {
        ItemsExtend(userStore.State(), c, history, i);
        if nextBeforeId == 0 || history[i].id < nextBeforeId {
          nextBeforeId := history[i].id;
        }
        var reply := ItemFor(history[i]);
        out := out + [Delivery(c, reply, false)];
      }
      assert history[..|history|] == history;
      out := out + [Delivery(c, HistoryEnd(|history| == limit, nextBeforeId), false)];
    }

    method ShowHistory(c: nat, sender: Session, peerName: string, asked: nat, beforeId: nat)
      returns (out: seq<Delivery>)
      ensures out == HandleHistory(State(), sender.(connectionId := c), peerName, asked, beforeId)
    {
      var limit := NormalizeHistoryLimit(asked);
      var peer := userStore.FindUserByUsername(peerName);
      if peer.None? {
        return Answer(c, ErrorReply("peer not found"));
      }
      var page := messageStore.DirectHistoryPage(sender.userId, peer.value.id, limit, beforeId);
      out := ShowPage(c, page, limit, M.Between(sender.userId, peer.value.id), asked, beforeId);
    }

    method ShowGroupHistory(c: nat, sender: Session, groupId: nat, asked: nat, beforeId: nat)
      returns (out: seq<Delivery>)
      ensures out == HandleGroupHistory(State(), sender.(connectionId := c), groupId, asked, beforeId)
    {
      var limit := NormalizeHistoryLimit(asked);
      var member := groupMemberStore.IsGroupMember(groupId, sender.userId);
      if !member {
        return Answer(c, ErrorReply("not a member of this group"));
      }
      var page := messageStore.GroupHistoryPage(groupId, limit, beforeId);
      out := ShowPage(c, page, limit, M.InGroup(groupId), asked, beforeId);
    }

    method ShowUnread(c: nat, sender: Session, lastSeen: nat, asked: nat) returns (out: seq<Delivery>)
      ensures out == HandleUnread(State(), sender.(connectionId := c), lastSeen, asked)
    {
      var limit := NormalizeHistoryLimit(asked);
      var groupIds := groupMemberStore.LoadUserGroups(sender.userId);
      ListIsUnique(groupIds, ListOf(GroupsOf(groupMemberStore.memoryMembers, sender.userId)));
      var unread := messageStore.FindUnread(sender.userId, groupIds, lastSeen, limit);
      out := ShowUnreadPage(c, unread, limit, M.UnreadBy(sender.userId, groupIds), asked, lastSeen);
    }

    method ShowUnreadPage(c: nat, unread: seq<M.StoredMessage>, limit: nat,
                          ghost q: M.Query, ghost asked: nat, lastSeen: nat)
      returns (out: seq<Delivery>)
      requires limit == NormalizeHistoryLimit(asked) && unread == M.UnreadPage(messageStore.messages, q, lastSeen, limit)
      ensures var page := UnreadReply(messageStore.messages, q, asked, lastSeen);
              out == Items(userStore.State(), c, page.items) + Answer(c, UnreadEnd(page.hasMore, page.next))
    {
      hide Item, UnreadReply, M.UnreadPage;
      UnreadPageIs(messageStore.messages, q, asked, lastSeen);
      LastIsHighest(messageStore.messages, q, asked, lastSeen);
      var nextLastSeen := lastSeen;
      out := [];
      for i := 0 to |unread|
        invariant nextLastSeen == if i == 0 then lastSeen else unread[i - 1].id
        invariant out == Items(userStore.State(), c, unread[..i])
      {
        ItemsExtend(userStore.State(), c, unread, i);
        nextLastSeen := if nextLastSeen < unread[i].id then unread[i].id else nextLastSeen;
        var reply := ItemFor(unread[i]);
        out := out + [Delivery(c, reply, false)];
      }
      assert unread[..|unread|] == unread;
      out := out + [Delivery(c, UnreadEnd(|unread| == limit, nextLastSeen), false)];
    }

    method HandleDisconnected(c: nat)
      modifies sessions
      ensures State() == HandleDisconnect(old(State()), c)
    {
      sessions.UnbindConnection(c);
    }

    /** A message that was built elsewhere is only stored. */
    method HandleMessage(message: M.Message)
      modifies messageStore
      ensures State() == old(State()).(log := old(State()).log + [message])
    {
      var stored := messageStore.Append(message);
    }
  }
}
