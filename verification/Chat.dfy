/** The chat command machine on values: what each command does to the sessions, the stores and the
    groups, and what it answers to whom. */
module Chat {
  import opened Wrappers
  import opened Json
  import opened Protocol
  import opened Sessions
  import opened UserStore
  import opened GroupMembers
  import opened Paging
  import Commands
  import M = MessageStore
  import Passwords

  /** `online` is the group map of the session manager, `members` the one of the member store. */
  datatype Chat = Chat(
    indexes: Indexes, online: Groups, users: Users, members: Groups, log: seq<M.Message>, nextGroup: nat)

  const EMPTY := Chat(NOBODY, map[], NO_USERS, map[], [], 1)

  datatype Delivery = Delivery(connectionId: nat, reply: Reply, closing: bool)

  /** What a command needs from outside: the key derivation and the random salt. */
  datatype Environment = Environment(kdf: Passwords.Kdf, salt: Option<seq<Passwords.Byte>>)

  function Answer(connectionId: nat, reply: Reply): seq<Delivery> {
    [Delivery(connectionId, reply, false)]
  }

  ghost function HandleRegister(chat: Chat, c: nat, username: string, password: string, env: Environment)
    : (Chat, seq<Delivery>)
  {
    if chat.indexes.FindByConnection(c).Some? then (chat, Answer(c, ErrorReply("already logged in")))
    else
      var (users, result) := RegisterOne(env.kdf, chat.users, Registration(username, password, env.salt));
      match result
      case Err(reason) => (chat.(users := users), Answer(c, RegisterFailed(reason)))
      case Ok(id) => (chat.(users := users), Answer(c, RegisterSuccess(id)))
  }

  ghost function HandleLogin(chat: Chat, c: nat, username: string, password: string, env: Environment)
    : (Chat, seq<Delivery>)
  {
    if chat.indexes.FindByConnection(c).Some? then (chat, Answer(c, LoginFailed("already logged in")))
    else if chat.indexes.FindByUsername(username).Some? then (chat, Answer(c, LoginFailed("user already online")))
    else
      var user := chat.users.VerifyLogin(env.kdf, username, password);
      if user.None? then (chat, Answer(c, LoginFailed("invalid username or password")))
      else (chat.(indexes := chat.indexes.Bind(Session(user.value.id, c, user.value.username))),
            Answer(c, LoginSuccess(user.value.id, user.value.username)))
  }

  ghost function HandleCreateGroup(chat: Chat, sender: Session, name: string): (Chat, seq<Delivery>) {
    if name == "" then (chat, Answer(sender.connectionId, ErrorReply("group name is required")))
    else
      var id := chat.nextGroup;
      (chat.(nextGroup := id + 1, members := Joined(chat.members, id, sender.userId),
             online := Joined(chat.online, id, sender.userId)),
       Answer(sender.connectionId, CreateGroupSuccess(id, name)))
  }

  ghost function HandleJoin(chat: Chat, sender: Session, groupId: nat): (Chat, seq<Delivery>) {
    (chat.(members := Joined(chat.members, groupId, sender.userId), online := Joined(chat.online, groupId, sender.userId)),
     Answer(sender.connectionId, OkReply("joined group " + Decimal(groupId))))
  }

  ghost function HandleLeave(chat: Chat, sender: Session, groupId: nat): (Chat, seq<Delivery>) {
    if !IsMember(chat.members, groupId, sender.userId) then
      (chat, Answer(sender.connectionId, ErrorReply("not a member of this group")))
    else
      (chat.(members := Left(chat.members, groupId, sender.userId), online := Left(chat.online, groupId, sender.userId)),
       Answer(sender.connectionId, OkReply("left group " + Decimal(groupId))))
  }

  /** One copy for each listed member that is online, except the sender. */
  function Copies(indexes: Indexes, members: seq<nat>, senderId: nat, reply: Reply): seq<Delivery> {
    if members == [] then []
    else
      var last := members[|members| - 1];
      Copies(indexes, members[..|members| - 1], senderId, reply) +
      if last != senderId && indexes.Find(last).Some? then
        Answer(indexes.Find(last).value.connectionId, reply)
      else []
  }

  ghost function HandleGroupChat(chat: Chat, sender: Session, groupId: nat, body: string): (Chat, seq<Delivery>) {
    if !IsMember(chat.members, groupId, sender.userId) then
      (chat, Answer(sender.connectionId, ErrorReply("not a member of this group")))
    else
      var log := chat.log + [M.Message(M.GroupChat, sender.userId, groupId, body)];
      var members := ListOf(MembersOf(chat.members, groupId));
      var copies := Copies(chat.indexes, members, sender.userId, GroupMessage(groupId, sender.username, body));
      (chat.(log := log), copies + Answer(sender.connectionId, MessageAck(|log|, true, copies != [])))
  }

  ghost function HandleDirect(chat: Chat, sender: Session, to: string, body: string): (Chat, seq<Delivery>) {
    var receiver := chat.users.FindByUsername(to);
    if receiver.None? then (chat, Answer(sender.connectionId, ErrorReply("receiver not found")))
    else
      var log := chat.log + [M.Message(M.DirectChat, sender.userId, receiver.value.id, body)];
      var session := chat.indexes.FindByUsername(to);
      if session.None? then (chat.(log := log), Answer(sender.connectionId, MessageAck(|log|, true, false)))
      else (chat.(log := log),
            Answer(session.value.connectionId, DirectMessage(sender.username, body)) +
            Answer(sender.connectionId, MessageAck(|log|, true, true)))
  }

  /** The name of a user, or the id in decimal when it is not known. */
  function NameOf(users: Users, id: nat): string {
    var user := users.FindById(id);
    if user.Some? then user.value.username else Decimal(id)
  }

  function Item(users: Users, m: M.StoredMessage): Reply {
    if m.message.kind == M.GroupChat then
      HistoryItem(m.id, "gc", NameOf(users, m.message.senderId), Decimal(m.message.receiverId), m.message.body, m.createdAt)
    else
      HistoryItem(m.id, "dm", NameOf(users, m.message.senderId), NameOf(users, m.message.receiverId), m.message.body,
                  m.createdAt)
  }

  function Items(users: Users, c: nat, found: seq<M.StoredMessage>): seq<Delivery> {
    seq(|found|, i requires 0 <= i < |found| => Delivery(c, Item(users, found[i]), false))
  }

  function HistoryAnswer(chat: Chat, c: nat, q: M.Query, limit: nat, beforeId: nat): seq<Delivery> {
    var page := HistoryPage(chat.log, q, limit, beforeId);
    Items(chat.users, c, page.items) + Answer(c, HistoryEnd(page.hasMore, page.next))
  }

  function HandleHistory(chat: Chat, sender: Session, peerName: string, limit: nat, beforeId: nat): seq<Delivery> {
    var peer := chat.users.FindByUsername(peerName);
    if peer.None? then Answer(sender.connectionId, ErrorReply("peer not found"))
    else HistoryAnswer(chat, sender.connectionId, M.Between(sender.userId, peer.value.id), limit, beforeId)
  }

  function HandleGroupHistory(chat: Chat, sender: Session, groupId: nat, limit: nat, beforeId: nat): seq<Delivery> {
    if !IsMember(chat.members, groupId, sender.userId) then
      Answer(sender.connectionId, ErrorReply("not a member of this group"))
    else HistoryAnswer(chat, sender.connectionId, M.InGroup(groupId), limit, beforeId)
  }

  ghost function HandleUnread(chat: Chat, sender: Session, lastSeen: nat, limit: nat): seq<Delivery> {
    var q := M.UnreadBy(sender.userId, ListOf(GroupsOf(chat.members, sender.userId)));
    var page := UnreadReply(chat.log, q, limit, lastSeen);
    Items(chat.users, sender.connectionId, page.items) + Answer(sender.connectionId, UnreadEnd(page.hasMore, page.next))
  }

  /** The commands that need a login; `sender` is the session on the connection the command came from. */
  ghost function HandleSession(chat: Chat, sender: Session, command: Commands.Command): (Chat, seq<Delivery>) {
    var c := sender.connectionId;
    match command
    case Logout =>
      (chat.(indexes := chat.indexes.UnbindConnection(c)), [Delivery(c, OkReply("logout"), true)])
    case CreateGroup(name) => HandleCreateGroup(chat, sender, name)
    case JoinGroup(groupId) => HandleJoin(chat, sender, groupId)
    case LeaveGroup(groupId) => HandleLeave(chat, sender, groupId)
    case GroupChat(groupId, body) => HandleGroupChat(chat, sender, groupId, body)
    case GroupHistory(groupId, limit, beforeId) => (chat, HandleGroupHistory(chat, sender, groupId, limit, beforeId))
    case History(peer, limit, beforeId) => (chat, HandleHistory(chat, sender, peer, limit, beforeId))
    case Direct(to, body) => HandleDirect(chat, sender, to, body)
    case Unread(lastSeen, limit) => (chat, HandleUnread(chat, sender, lastSeen, limit))
    case _ => (chat, Answer(c, ErrorReply("unsupported command")))
  }

  ghost function Handle(chat: Chat, c: nat, command: Commands.Command, env: Environment): (Chat, seq<Delivery>) {
    match command
    case Ping => (chat, Answer(c, Pong))
    case Register(username, password) => HandleRegister(chat, c, username, password, env)
    case Login(username, password) => HandleLogin(chat, c, username, password, env)
    case _ =>
      var sender := chat.indexes.FindByConnection(c);
      if sender.None? then (chat, Answer(c, ErrorReply("please login first")))
      else HandleSession(chat, sender.value.(connectionId := c), command)
  }

  ghost function HandleLine(chat: Chat, c: nat, line: string, env: Environment): (Chat, seq<Delivery>) {
    match Commands.ParseClientCommand(line)
    case Err(error) => (chat, Answer(c, ErrorReply(error)))
    case Ok(command) => Handle(chat, c, command, env)
  }

  function HandleDisconnect(chat: Chat, c: nat): Chat {
    chat.(indexes := chat.indexes.UnbindConnection(c))
  }

  /** A restart of the server keeps the stores and forgets what the session manager held. */
  function Restarted(chat: Chat): Chat {
    chat.(indexes := NOBODY, online := map[])
  }
}
