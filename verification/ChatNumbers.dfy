/** The numbers in the server's replies: while its counters fit 64 bits, so does every number it sends. */
module ChatNumbers {
  import opened Wrappers
  import opened Json
  import opened Protocol
  import opened Sessions
  import opened UserStore
  import opened GroupMembers
  import opened Paging
  import opened Chat
  import opened ChatTheorems
  import Commands
  import M = MessageStore
  import Passwords

  /** The ids handed out so far fit 64 bits. */
  predicate Small(chat: Chat) {
    chat.users.nextId <= TWO_TO_THE_64 && chat.nextGroup <= TWO_TO_THE_64 && |chat.log| < TWO_TO_THE_64
  }

  predicate NumbersFit(r: Reply) {
    match r
    case RegisterSuccess(userId) => userId < TWO_TO_THE_64
    case LoginSuccess(userId, _) => userId < TWO_TO_THE_64
    case CreateGroupSuccess(groupId, _) => groupId < TWO_TO_THE_64
    case MessageAck(messageId, _, _) => messageId < TWO_TO_THE_64
    case GroupMessage(groupId, _, _) => groupId < TWO_TO_THE_64
    case HistoryItem(messageId, _, _, _, _, _) => messageId < TWO_TO_THE_64
    case HistoryEnd(_, next) => next < TWO_TO_THE_64
    case UnreadEnd(_, next) => next < TWO_TO_THE_64
    case _ => true
  }

  lemma NumbersDecide(r: Reply)
    ensures NumbersFit(r) ==> Fits(r)
  {
  }

  ghost predicate AllFit(out: seq<Delivery>) {
    forall d :: d in out ==> NumbersFit(d.reply)
  }

  lemma {:induction false} CopiesFit(indexes: Indexes, members: seq<nat>, senderId: nat, reply: Reply)
    requires NumbersFit(reply)
    ensures AllFit(Copies(indexes, members, senderId, reply))
  {
    hide NumbersFit;
    if members != [] {
      CopiesFit(indexes, members[..|members| - 1], senderId, reply);
    }
  }

  lemma ItemsFit(users: Users, c: nat, found: seq<M.StoredMessage>)
    requires forall i :: 0 <= i < |found| ==> found[i].id < TWO_TO_THE_64
    ensures AllFit(Items(users, c, found))
  {
    hide NameOf;
  }

  lemma HistoryFits(chat: Chat, c: nat, q: M.Query, limit: nat, beforeId: nat)
    requires Small(chat)
    ensures AllFit(HistoryAnswer(chat, c, q, limit, beforeId))
  {
    hide HistoryPage, Item, NumbersFit;
    var page := HistoryPage(chat.log, q, limit, beforeId);
    PageIdsFit(chat.log, q, limit, beforeId);
    CursorInLog(chat.log, q, limit, beforeId);
    ItemsFit(chat.users, c, page.items);
    EndNumber(page.hasMore, page.next);
    EndFits(c, HistoryEnd(page.hasMore, page.next), Items(chat.users, c, page.items));
  }

  lemma PageIdsFit(log: seq<M.Message>, q: M.Query, limit: nat, beforeId: nat)
    ensures var items := HistoryPage(log, q, limit, beforeId).items;
            forall i :: 0 <= i < |items| ==> items[i].id <= |log|
  {
    hide HistoryPage, M.Matching, M.Matches;
    HistoryItems(log, q, limit, beforeId);
    M.MatchingIsExact(log, q, 0, M.Upto(log, beforeId));
  }

  lemma EndFits(c: nat, end: Reply, before: seq<Delivery>)
    requires NumbersFit(end) && AllFit(before)
    ensures AllFit(before + Answer(c, end))
  {
    hide NumbersFit;
  }

  lemma UnreadFits(chat: Chat, sender: Session, lastSeen: nat, limit: nat)
    requires Small(chat) && lastSeen < TWO_TO_THE_64
    ensures AllFit(HandleUnread(chat, sender, lastSeen, limit))
  {
    hide UnreadReply, Item, NumbersFit;
    var q := M.UnreadBy(sender.userId, ListOf(GroupsOf(chat.members, sender.userId)));
    var page := UnreadReply(chat.log, q, limit, lastSeen);
    UnreadIdsFit(chat.log, q, limit, lastSeen);
    ItemsFit(chat.users, sender.connectionId, page.items);
    EndNumber(page.hasMore, page.next);
    EndFits(sender.connectionId, UnreadEnd(page.hasMore, page.next), Items(chat.users, sender.connectionId, page.items));
  }

  lemma EndNumber(hasMore: bool, next: nat)
    requires next < TWO_TO_THE_64
    ensures NumbersFit(UnreadEnd(hasMore, next)) && NumbersFit(HistoryEnd(hasMore, next))
  {
  }

  lemma UnreadIdsFit(log: seq<M.Message>, q: M.Query, limit: nat, lastSeen: nat)
    ensures var page := UnreadReply(log, q, limit, lastSeen);
            && (forall i :: 0 <= i < |page.items| ==> page.items[i].id <= |log|)
            && (page.next == lastSeen || page.next <= |log|)
  {
    hide M.Matching, M.Matches;
    M.MatchingIsExact(log, q, M.Least(lastSeen, |log|), |log|);
  }

  lemma GroupChatFits(chat: Chat, sender: Session, groupId: nat, body: string)
    requires groupId < TWO_TO_THE_64 && Small(HandleGroupChat(chat, sender, groupId, body).0)
    ensures AllFit(HandleGroupChat(chat, sender, groupId, body).1)
  {
    hide Copies;
    if IsMember(chat.members, groupId, sender.userId) {
      var reply := GroupMessage(groupId, sender.username, body);
      var copies := Copies(chat.indexes, ListOf(MembersOf(chat.members, groupId)), sender.userId, reply);
      CopiesFit(chat.indexes, ListOf(MembersOf(chat.members, groupId)), sender.userId, reply);
      EndFits(sender.connectionId, MessageAck(|chat.log| + 1, true, copies != []), copies);
    }
  }

  lemma SessionFits(chat: Chat, sender: Session, command: Commands.Command)
    requires Commands.Sensible(command)
    requires Small(chat) && Small(HandleSession(chat, sender, command).0)
    ensures AllFit(HandleSession(chat, sender, command).1)
  {
    hide HandleGroupChat, HandleUnread, HistoryAnswer, Joined, Left, IsMember, Decimal;
    match command
    case GroupChat(groupId, body) => GroupChatFits(chat, sender, groupId, body);
    case History(peer, limit, beforeId) =>
      var user := chat.users.FindByUsername(peer);
      if user.Some? {
        HistoryFits(chat, sender.connectionId, M.Between(sender.userId, user.value.id), limit, beforeId);
      }
    case GroupHistory(groupId, limit, beforeId) =>
      HistoryFits(chat, sender.connectionId, M.InGroup(groupId), limit, beforeId);
    case Unread(lastSeen, limit) => UnreadFits(chat, sender, lastSeen, limit);
    case _ =>
  }

  lemma CountersGrow(chat: Chat, c: nat, line: string, env: Environment)
    ensures var after := HandleLine(chat, c, line, env).0;
            && chat.users.nextId <= after.users.nextId && chat.nextGroup <= after.nextGroup && |chat.log| <= |after.log|
  {
    hide Commands.ParseClientCommand, Copies, Joined, Left, IsMember, Indexes.Bind, Users.VerifyLogin, HandleUnread,
         HandleHistory, HandleGroupHistory;
  }

  lemma EarlyFits(chat: Chat, c: nat, command: Commands.Command, env: Environment, ids: nat)
    requires Sound(chat, ids) && (command.Register? || command.Login?)
    requires Small(chat) && Small(Handle(chat, c, command, env).0)
    ensures AllFit(Handle(chat, c, command, env).1)
  {
    hide Indexes.Bind, Indexes.Bijective, Users.VerifyLogin, Users.OneToOne, Within, Named, Allocated;
    if command.Login? && chat.users.VerifyLogin(env.kdf, command.username, command.password).Some? {
      LoginId(chat.users, env.kdf, command.username, command.password);
    }
  }

  lemma LoginId(users: Users, kdf: Passwords.Kdf, username: string, password: string)
    requires users.OneToOne() && users.VerifyLogin(kdf, username, password).Some?
    ensures users.VerifyLogin(kdf, username, password).value.id < users.nextId
  {
  }

  /** As long as the counters fit 64 bits after a line, every number in its answers does. */
  lemma RepliesFit(chat: Chat, c: nat, line: string, env: Environment, ids: nat)
    requires Sound(chat, ids) && Small(HandleLine(chat, c, line, env).0)
    ensures forall d :: d in HandleLine(chat, c, line, env).1 ==> Fits(d.reply)
  {
    hide Commands.ParseClientCommand, Commands.Sensible, HandleSession, Sound, HandleRegister, HandleLogin, Fits;
    CountersGrow(chat, c, line, env);
    var parsed, out := Commands.ParseClientCommand(line), HandleLine(chat, c, line, env).1;
    if parsed.Ok? {
      var command, sender := parsed.value, chat.indexes.FindByConnection(c);
      Commands.ReadIsSensible(line, command);
      if command.Register? || command.Login? {
        EarlyFits(chat, c, command, env, ids);
      } else if !command.Ping? && sender.Some? {
        SessionFits(chat, sender.value.(connectionId := c), command);
      }
    }
    assert AllFit(out);
    forall d | d in out ensures Fits(d.reply) {
      NumbersDecide(d.reply);
    }
  }
}
