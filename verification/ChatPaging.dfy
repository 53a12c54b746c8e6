/** History paging as a client does it: by commands on its connection, while the chat goes on. */
module ChatPaging {
  import opened Wrappers
  import opened Protocol
  import opened Paging
  import opened Chat
  import opened ChatTheorems
  import opened Sessions
  import opened GroupMembers
  import Commands
  import M = MessageStore

  lemma LogOnlyGrows(w: World, step: Step)
    ensures w.chat.log <= Advance(w, step).chat.log
  {
    hide Commands.ParseClientCommand, Copies, HandleRegister, HandleLogin, Joined, Left, IsMember;
    match step
    case Line(c, line, env) =>
      EarlyCommandsKeepLog(w.chat, c, line, env);
    case _ =>
  }

  lemma EarlyCommandsKeepLog(chat: Chat, c: nat, line: string, env: Environment)
    ensures forall username, password :: HandleRegister(chat, c, username, password, env).0.log == chat.log
    ensures forall username, password :: HandleLogin(chat, c, username, password, env).0.log == chat.log
  {
  }

  lemma {:induction false} LogGrowsAlong(w: World, steps: seq<Step>)
    ensures w.chat.log <= AdvanceAll(w, steps).chat.log
  {
    hide Advance;
    if steps != [] {
      LogGrowsAlong(w, steps[..|steps| - 1]);
      LogOnlyGrows(AdvanceAll(w, steps[..|steps| - 1]), steps[|steps| - 1]);
    }
  }

  datatype Target = WithPeer(peer: string) | InGroup(groupId: nat)

  function Request(target: Target, limit: nat, beforeId: nat): Commands.Command {
    match target
    case WithPeer(peer) => Commands.History(peer, limit, beforeId)
    case InGroup(groupId) => Commands.GroupHistory(groupId, limit, beforeId)
  }

  /** The messages a history request on connection `c` is about, if it is accepted. */
  function QueryOf(chat: Chat, c: nat, target: Target): Option<M.Query> {
    var sender := chat.indexes.FindByConnection(c);
    if sender.None? then None
    else
      match target
      case WithPeer(peer) =>
        var user := chat.users.FindByUsername(peer);
        if user.Some? then Some(M.Between(sender.value.userId, user.value.id)) else None
      case InGroup(groupId) =>
        if IsMember(chat.members, groupId, sender.value.userId) then Some(M.InGroup(groupId)) else None
  }

  lemma RequestIsAnswered(chat: Chat, c: nat, target: Target, limit: nat, beforeId: nat, env: Environment)
    ensures var (after, out) := Handle(chat, c, Request(target, limit, beforeId), env);
            && after == chat
            && (match QueryOf(chat, c, target)
                case Some(q) => out == HistoryAnswer(chat, c, q, limit, beforeId)
                case None => |out| == 1 && out[0].reply.ErrorReply?)
  {
    hide HistoryAnswer;
  }

  /** `(id, body)` of the items in an answer, and its end marker. */
  function ItemsShown(out: seq<Delivery>): seq<(nat, string)> {
    if out == [] then []
    else
      (if out[0].reply.HistoryItem? then [(out[0].reply.messageId, out[0].reply.body)] else []) + ItemsShown(out[1..])
  }

  function EndOf(out: seq<Delivery>): Reply {
    if out == [] then Pong else out[|out| - 1].reply
  }

  function Contents(found: seq<M.StoredMessage>): seq<(nat, string)> {
    seq(|found|, i requires 0 <= i < |found| => (found[i].id, found[i].message.body))
  }

  lemma {:induction false} ShownAre(chat: Chat, c: nat, found: seq<M.StoredMessage>, end: Delivery)
    requires !end.reply.HistoryItem?
    ensures ItemsShown(Items(chat.users, c, found) + [end]) == Contents(found)
  {
    var out := Items(chat.users, c, found) + [end];
    if found == [] {
      assert out == [end] && out[1..] == [];
    } else {
      ShownAre(chat, c, found[1..], end);
      assert out[1..] == Items(chat.users, c, found[1..]) + [end];
      assert out[0].reply == Item(chat.users, found[0]);
      assert Contents(found) == [(found[0].id, found[0].message.body)] + Contents(found[1..]);
    }
  }

  lemma EndMarks(chat: Chat, c: nat, target: Target, limit: nat, beforeId: nat, env: Environment)
    ensures var out := Handle(chat, c, Request(target, limit, beforeId), env).1;
            match QueryOf(chat, c, target)
            case Some(q) =>
              var page := HistoryPage(chat.log, q, limit, beforeId);
              EndOf(out) == HistoryEnd(page.hasMore, page.next) && ItemsShown(out) == Contents(page.items)
            case None => !EndOf(out).HistoryEnd?
  {
    hide Handle, Item, HistoryPage, ItemsShown, QueryOf;
    RequestIsAnswered(chat, c, target, limit, beforeId, env);
    var query := QueryOf(chat, c, target);
    if query.Some? {
      var page := HistoryPage(chat.log, query.value, limit, beforeId);
      ShownAre(chat, c, page.items, Delivery(c, HistoryEnd(page.hasMore, page.next), false));
    }
  }

  /** The client asks over and over with the cursor of the last answer while there is more; `worlds(k)`
      is the state when its k-th command is handled. */
  ghost function Ask(
    worlds: nat -> World, k: nat, c: nat, target: Target, limits: nat -> nat, beforeId: nat,
    env: Environment): seq<seq<Delivery>>
    decreases beforeId == 0, beforeId
  {
    var out := Handle(worlds(k).chat, c, Request(target, limits(k), beforeId), env).1;
    EndMarks(worlds(k).chat, c, target, limits(k), beforeId, env);
    if EndOf(out).HistoryEnd? && EndOf(out).hasMore then
      [out] + Ask(worlds, k + 1, c, target, limits, EndOf(out).next, env)
    else [out]
  }

  /** Everything shown, the last answer first. */
  ghost function AllShown(answers: seq<seq<Delivery>>): seq<(nat, string)> {
    if answers == [] then [] else AllShown(answers[1..]) + ItemsShown(answers[0])
  }

  function LogsOf(worlds: nat -> World): nat -> seq<M.Message> {
    (k: nat) => worlds(k).chat.log
  }

  lemma {:induction false} AnswersArePages(
    worlds: nat -> World, k: nat, c: nat, target: Target, limits: nat -> nat, beforeId: nat,
    env: Environment, q: M.Query)
    requires forall i: nat :: QueryOf(worlds(i).chat, c, target) == Some(q)
    ensures AllShown(Ask(worlds, k, c, target, limits, beforeId, env)) ==
            Contents(Gathered(HistoryClient(LogsOf(worlds), k, q, limits, beforeId)))
    decreases beforeId == 0, beforeId
  {
    hide HistoryPage, Handle, QueryOf, ItemsShown, EndOf, Request;
    var chat := worlds(k).chat;
    var out := Handle(chat, c, Request(target, limits(k), beforeId), env).1;
    var page := HistoryPage(chat.log, q, limits(k), beforeId);
    assert LogsOf(worlds)(k) == chat.log;
    EndMarks(chat, c, target, limits(k), beforeId, env);
    if page.hasMore {
      var answers := Ask(worlds, k + 1, c, target, limits, page.next, env);
      var pages := HistoryClient(LogsOf(worlds), k + 1, q, limits, page.next);
      AnswersArePages(worlds, k + 1, c, target, limits, page.next, env, q);
      FirstShown(out, answers, page, pages);
    } else {
      FirstShown(out, [], page, []);
    }
  }

  lemma FirstShown(out: seq<Delivery>, answers: seq<seq<Delivery>>, page: PageReply, pages: seq<PageReply>)
    requires ItemsShown(out) == Contents(page.items) && AllShown(answers) == Contents(Gathered(pages))
    ensures AllShown([out] + answers) == Contents(Gathered([page] + pages))
  {
    assert ([out] + answers)[1..] == answers && ([page] + pages)[1..] == pages;
  }

  /** A user who stays logged in on connection `c`, and whose request stays accepted for the same
      conversation, pages through it by history commands: whatever others, or the user, do between the
      commands, the items shown, put together, are the conversation as of the first command. */
  lemma PagingByCommandsIsComplete(
    worlds: nat -> World, between: nat -> seq<Step>, c: nat, target: Target, limits: nat -> nat,
    env: Environment, q: M.Query)
    requires forall k: nat :: worlds(k + 1) == AdvanceAll(worlds(k), between(k))
    requires forall k: nat :: QueryOf(worlds(k).chat, c, target) == Some(q)
    ensures var log := worlds(0).chat.log;
            AllShown(Ask(worlds, 0, c, target, limits, 0, env)) == Contents(M.Matching(log, q, 0, |log|))
  {
    hide AdvanceAll, QueryOf, M.Matching;
    var logs := LogsOf(worlds);
    forall k: nat ensures logs(k) <= logs(k + 1) {
      LogGrowsAlong(worlds(k), between(k));
    }
    HistoryPagingIsComplete(logs, q, limits);
    AnswersArePages(worlds, 0, c, target, limits, 0, env, q);
  }

  // ------------------------------------------------------------ unread messages

  /** The messages an unread request on connection `c` is about: those of the user and of its groups. */
  ghost function UnreadOf(chat: Chat, c: nat): Option<M.Query> {
    var sender := chat.indexes.FindByConnection(c);
    if sender.None? then None
    else Some(M.UnreadBy(sender.value.userId, ListOf(GroupsOf(chat.members, sender.value.userId))))
  }

  lemma UnreadIsAnswered(chat: Chat, c: nat, limit: nat, lastSeen: nat, env: Environment, q: M.Query)
    requires UnreadOf(chat, c) == Some(q)
    ensures var page := UnreadReply(chat.log, q, limit, lastSeen);
            Handle(chat, c, Commands.Unread(lastSeen, limit), env) ==
            (chat, Items(chat.users, c, page.items) + Answer(c, UnreadEnd(page.hasMore, page.next)))
  {
    hide Items, UnreadReply;
  }

  lemma UnreadEndMarks(chat: Chat, c: nat, limit: nat, lastSeen: nat, env: Environment, q: M.Query)
    requires UnreadOf(chat, c) == Some(q)
    ensures var page := UnreadReply(chat.log, q, limit, lastSeen);
            var out := Handle(chat, c, Commands.Unread(lastSeen, limit), env).1;
            EndOf(out) == UnreadEnd(page.hasMore, page.next) && ItemsShown(out) == Contents(page.items)
  {
    hide Handle, Item, UnreadReply, ItemsShown, UnreadOf;
    UnreadIsAnswered(chat, c, limit, lastSeen, env, q);
    var page := UnreadReply(chat.log, q, limit, lastSeen);
    ShownAre(chat, c, page.items, Delivery(c, UnreadEnd(page.hasMore, page.next), false));
  }

  /** What the k-th command answers for a cursor. */
  ghost function UnreadServer(worlds: nat -> World, c: nat, limits: nat -> nat, env: Environment)
    : (nat, nat) -> seq<Delivery>
  {
    (k: nat, lastSeen: nat) => Handle(worlds(k).chat, c, Commands.Unread(lastSeen, limits(k)), env).1
  }

  /** Every answer that has more moves the cursor up within the log, which is `length(k)` long at the
      k-th command and stops growing. */
  ghost predicate Progress(server: (nat, nat) -> seq<Delivery>, length: nat -> nat, settled: nat) {
    && (forall k: nat :: settled <= k ==> length(k) == length(settled))
    && (forall k: nat, lastSeen: nat ::
          var end := EndOf(server(k, lastSeen));
          end.UnreadEnd? && (end.hasMore ==> lastSeen < end.next <= length(k)))
  }

  /** The client drains its unread messages by commands until an answer has no more. */
  ghost function AskUnread(
    server: (nat, nat) -> seq<Delivery>, length: nat -> nat, settled: nat, k: nat, lastSeen: nat): seq<seq<Delivery>>
    requires Progress(server, length, settled)
    decreases Ahead(settled, k), Ahead(length(settled), lastSeen)
  {
    var out := server(k, lastSeen);
    if EndOf(out).hasMore then [out] + AskUnread(server, length, settled, k + 1, EndOf(out).next) else [out]
  }

  function LengthsOf(worlds: nat -> World): nat -> nat {
    (k: nat) => |worlds(k).chat.log|
  }

  lemma UnreadProgress(
    worlds: nat -> World, settled: nat, c: nat, limits: nat -> nat, env: Environment, q: M.Query)
    requires Settles(LogsOf(worlds), settled) && forall i: nat :: UnreadOf(worlds(i).chat, c) == Some(q)
    ensures Progress(UnreadServer(worlds, c, limits, env), LengthsOf(worlds), settled)
  {
    hide Handle, UnreadOf, EndOf, UnreadReply;
    var server, length := UnreadServer(worlds, c, limits, env), LengthsOf(worlds);
    forall k: nat, lastSeen: nat
      ensures var end := EndOf(server(k, lastSeen));
              end.UnreadEnd? && (end.hasMore ==> lastSeen < end.next <= length(k))
    {
      UnreadEndMarks(worlds(k).chat, c, limits(k), lastSeen, env, q);
    }
    forall k: nat | settled <= k ensures length(k) == length(settled) {
      assert LogsOf(worlds)(k) == LogsOf(worlds)(settled);
    }
  }

  ghost function ShownInOrder(answers: seq<seq<Delivery>>): seq<(nat, string)> {
    if answers == [] then [] else ItemsShown(answers[0]) + ShownInOrder(answers[1..])
  }

  lemma FirstShownInOrder(out: seq<Delivery>, answers: seq<seq<Delivery>>, page: PageReply, pages: seq<PageReply>)
    requires ItemsShown(out) == Contents(page.items) && ShownInOrder(answers) == Contents(InOrder(pages))
    requires |answers| == |pages|
    ensures ShownInOrder([out] + answers) == Contents(InOrder([page] + pages))
    ensures |[out] + answers| == |[page] + pages|
  {
    assert ([out] + answers)[1..] == answers && ([page] + pages)[1..] == pages;
  }

  lemma {:induction false} UnreadAnswersArePages(
    worlds: nat -> World, settled: nat, k: nat, c: nat, limits: nat -> nat, lastSeen: nat, env: Environment, q: M.Query)
    requires Settles(LogsOf(worlds), settled) && forall i: nat :: UnreadOf(worlds(i).chat, c) == Some(q)
    requires Progress(UnreadServer(worlds, c, limits, env), LengthsOf(worlds), settled)
    ensures var answers := AskUnread(UnreadServer(worlds, c, limits, env), LengthsOf(worlds), settled, k, lastSeen);
            var pages := UnreadClient(LogsOf(worlds), settled, k, q, limits, lastSeen);
            ShownInOrder(answers) == Contents(InOrder(pages)) && |answers| == |pages|
    decreases Ahead(settled, k), Ahead(|LogsOf(worlds)(settled)|, lastSeen)
  {
    hide UnreadReply, Handle, UnreadOf, ItemsShown, EndOf, ShownInOrder, InOrder, Contents, Progress;
    var chat, server := worlds(k).chat, UnreadServer(worlds, c, limits, env);
    var out, page := server(k, lastSeen), UnreadReply(chat.log, q, limits(k), lastSeen);
    assert LogsOf(worlds)(k) == chat.log;
    UnreadEndMarks(chat, c, limits(k), lastSeen, env, q);
    if page.hasMore {
      UnreadAnswersArePages(worlds, settled, k + 1, c, limits, page.next, env, q);
      FirstShownInOrder(out, AskUnread(server, LengthsOf(worlds), settled, k + 1, page.next),
                        page, UnreadClient(LogsOf(worlds), settled, k + 1, q, limits, page.next));
    } else {
      NothingShown();
      FirstShownInOrder(out, [], page, []);
      assert [out] + [] == [out] && [page] + [] == [page];
    }
  }

  lemma NothingShown()
    ensures ShownInOrder([]) == Contents(InOrder([]))
  {
  }

  /** A logged-in user with unchanging memberships drains its unread messages by commands; when the log
      has stopped growing the drain ends, and the items shown are exactly the messages to the user and
      the other members' messages to its groups above the start cursor, as of the last command. */
  lemma UnreadByCommandsIsComplete(
    worlds: nat -> World, between: nat -> seq<Step>, settled: nat, c: nat, limits: nat -> nat, lastSeen: nat,
    env: Environment, q: M.Query)
    requires forall k: nat :: worlds(k + 1) == AdvanceAll(worlds(k), between(k))
    requires Settles(LogsOf(worlds), settled) && forall i: nat :: UnreadOf(worlds(i).chat, c) == Some(q)
    ensures Progress(UnreadServer(worlds, c, limits, env), LengthsOf(worlds), settled)
    ensures var answers := AskUnread(UnreadServer(worlds, c, limits, env), LengthsOf(worlds), settled, 0, lastSeen);
            && answers != []
            && var log := worlds(|answers| - 1).chat.log;
               ShownInOrder(answers) == Contents(M.Matching(log, q, M.Least(lastSeen, |log|), |log|))
  {
    hide AdvanceAll, UnreadOf, M.Matching, AskUnread, UnreadClient, Progress;
    var logs := LogsOf(worlds);
    forall k: nat ensures logs(k) <= logs(k + 1) {
      LogGrowsAlong(worlds(k), between(k));
    }
    UnreadProgress(worlds, settled, c, limits, env, q);
    UnreadDrainIsComplete(logs, settled, q, limits, lastSeen);
    UnreadAnswersArePages(worlds, settled, 0, c, limits, lastSeen, env, q);
  }
}
