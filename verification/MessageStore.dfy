/** The message log of the in-memory mode and its queries. A message's id is its position in the log,
    counted from 1. Every query is specified by one simple filter over a range of ids. */
module MessageStore {

  datatype MessageType =
    | Register | Login | Logout | DirectChat | GroupChat | CreateGroup
    | GroupJoin | GroupLeave | HistoryQuery | UnreadQuery | Ping | System

  datatype Message = Message(kind: MessageType, senderId: nat, receiverId: nat, body: string)

  /** In memory mode `createdAt` is always empty. */
  datatype StoredMessage = StoredMessage(id: nat, message: Message, createdAt: string)

  datatype Query =
    | Between(userId: nat, peerId: nat)
    | InGroup(groupId: nat)
    | UnreadBy(userId: nat, groupIds: seq<nat>)

  predicate Matches(q: Query, m: Message) {
    match q
    case Between(userId, peerId) =>
      && m.kind == DirectChat
      && ((m.senderId == userId && m.receiverId == peerId) || (m.senderId == peerId && m.receiverId == userId))
    case InGroup(groupId) => m.kind == GroupChat && m.receiverId == groupId
    case UnreadBy(userId, groupIds) =>
      || (m.kind == DirectChat && m.receiverId == userId)
      || (m.kind == GroupChat && m.senderId != userId && m.receiverId in groupIds)
  }

  function Stored(log: seq<Message>, id: nat): StoredMessage
    requires 1 <= id <= |log|
  {
    StoredMessage(id, log[id - 1], "")
  }

  /** The messages with `after < id <= end` that `q` asks for, oldest first. */
  function Matching(log: seq<Message>, q: Query, after: nat, end: nat): (found: seq<StoredMessage>)
    requires after <= end <= |log|
    decreases end
  {
    if after == end then []
    else Matching(log, q, after, end - 1) + (if Matches(q, log[end - 1]) then [Stored(log, end)] else [])
  }

  /** `found` holds exactly the matching messages of the range, each once and in id order. */
  ghost predicate Exactly(found: seq<StoredMessage>, log: seq<Message>, q: Query, after: nat, end: nat)
    requires after <= end <= |log|
  {
    && (forall i :: 0 <= i < |found| ==>
          after < found[i].id <= end && found[i] == Stored(log, found[i].id) && Matches(q, found[i].message))
    && (forall i, j :: 0 <= i < j < |found| ==> found[i].id < found[j].id)
    && (forall id :: after < id <= end && Matches(q, log[id - 1]) ==> Stored(log, id) in found)
  }

  lemma {:induction false} MatchingIsExact(log: seq<Message>, q: Query, after: nat, end: nat)
    requires after <= end <= |log|
    ensures Exactly(Matching(log, q, after, end), log, q, after, end)
    decreases end
  {
    if after < end {
      MatchingIsExact(log, q, after, end - 1);
      ExactlyExtends(Matching(log, q, after, end - 1), log, q, after, end);
    }
  }

  lemma ExactlyExtends(found: seq<StoredMessage>, log: seq<Message>, q: Query, after: nat, end: nat)
    requires after < end <= |log| && Exactly(found, log, q, after, end - 1)
    ensures Exactly(found + if Matches(q, log[end - 1]) then [Stored(log, end)] else [], log, q, after, end)
  {
    hide Matches;
    var more := found + if Matches(q, log[end - 1]) then [Stored(log, end)] else [];
    forall i | 0 <= i < |more|
      ensures after < more[i].id <= end && more[i] == Stored(log, more[i].id) && Matches(q, more[i].message)
    {
      if i < |found| { assert more[i] == found[i]; }
    }
    forall id | after < id <= end && Matches(q, log[id - 1]) ensures Stored(log, id) in more {
      if id == end { assert more[|found|] == Stored(log, id); } else { assert Stored(log, id) in found; }
    }
  }

  lemma {:induction false} MatchingSplits(log: seq<Message>, q: Query, after: nat, middle: nat, end: nat)
    requires after <= middle <= end <= |log|
    ensures Matching(log, q, after, end) == Matching(log, q, after, middle) + Matching(log, q, middle, end)
    decreases end
  {
    if middle < end {
      MatchingSplits(log, q, after, middle, end - 1);
    }
  }

  lemma {:induction false} MatchingIgnoresAppends(log: seq<Message>, longer: seq<Message>, q: Query, after: nat, end: nat)
    requires log <= longer && after <= end <= |log|
    ensures Matching(longer, q, after, end) == Matching(log, q, after, end)
    decreases end
  {
    if after < end {
      MatchingIgnoresAppends(log, longer, q, after, end - 1);
    }
  }

  function Least(a: nat, b: nat): nat {
    if a < b then a else b
  }

  function Last(s: seq<StoredMessage>, limit: nat): seq<StoredMessage> {
    s[|s| - Least(limit, |s|)..]
  }

  function First(s: seq<StoredMessage>, limit: nat): seq<StoredMessage> {
    s[..Least(limit, |s|)]
  }

  function Reversed(s: seq<StoredMessage>): seq<StoredMessage> {
    seq(|s|, i requires 0 <= i < |s| => s[|s| - 1 - i])
  }

  /** The ids a request with cursor `beforeId` may see; 0 asks for all. */
  function Upto(log: seq<Message>, beforeId: nat): (end: nat)
    ensures end <= |log| && (beforeId > 0 ==> end < beforeId)
  {
    if beforeId == 0 then |log| else Least(|log|, beforeId - 1)
  }

  const DEFAULT_LIMIT: nat := 20

  function LimitOrDefault(limit: nat): nat {
    if limit == 0 then DEFAULT_LIMIT else limit
  }

  /** The newest messages below the cursor, newest first. */
  function Page(log: seq<Message>, q: Query, limit: nat, beforeId: nat): seq<StoredMessage> {
    Reversed(Last(Matching(log, q, 0, Upto(log, beforeId)), LimitOrDefault(limit)))
  }

  /** The oldest messages above the cursor, oldest first. */
  function UnreadPage(log: seq<Message>, q: Query, lastSeen: nat, limit: nat): seq<StoredMessage> {
    First(Matching(log, q, Least(lastSeen, |log|), |log|), LimitOrDefault(limit))
  }

  /** How long pages are: as long as asked for, 20 when nothing is, unless fewer messages match. */
  lemma PageSizes(log: seq<Message>, q: Query, limit: nat, beforeId: nat, lastSeen: nat)
    ensures var size := if limit == 0 then 20 else limit;
            && |Page(log, q, limit, beforeId)| == Least(size, |Matching(log, q, 0, Upto(log, beforeId))|)
            && |UnreadPage(log, q, lastSeen, limit)| ==
               Least(size, |Matching(log, q, Least(lastSeen, |log|), |log|)|)
  {
    hide Matching;
  }

  function Plain(found: seq<StoredMessage>): seq<Message> {
    seq(|found|, i requires 0 <= i < |found| => found[i].message)
  }

  lemma ReversedExtends(m: StoredMessage, s: seq<StoredMessage>)
    ensures Reversed([m] + s) == Reversed(s) + [m]
  {
  }

  /** One turn of a page loop, going down. */
  lemma PageTurn(log: seq<Message>, q: Query, id: nat, end: nat)
    requires 1 <= id <= end <= |log|
    ensures Reversed(Matching(log, q, id - 1, end)) ==
            Reversed(Matching(log, q, id, end)) + if Matches(q, log[id - 1]) then [Stored(log, id)] else []
  {
    hide Matches, Reversed;
    var above := Matching(log, q, id, end);
    MatchingSplits(log, q, id - 1, id, end);
    OneId(log, q, id);
    if Matches(q, log[id - 1]) {
      ReversedExtends(Stored(log, id), above);
    } else {
      assert [] + above == above && Reversed(above) + [] == Reversed(above);
    }
  }

  lemma OneId(log: seq<Message>, q: Query, id: nat)
    requires 1 <= id <= |log|
    ensures Matching(log, q, id - 1, id) == if Matches(q, log[id - 1]) then [Stored(log, id)] else []
  {
    hide Matches;
    assert Matching(log, q, id - 1, id - 1) == [];
  }

  /** When the loop stops, the page is full or nothing is left. */
  lemma PageDone(log: seq<Message>, q: Query, id: nat, end: nat, limit: nat)
    requires id <= end <= |log|
    requires var found := Matching(log, q, id, end); |found| <= limit && (id == 0 || |found| == limit)
    ensures Last(Matching(log, q, 0, end), limit) == Matching(log, q, id, end)
  {
    MatchingSplits(log, q, 0, id, end);
    assert Matching(log, q, 0, 0) == [];
  }

  class MessageStore {
    var messages: seq<Message>

    constructor ()
      ensures messages == []
    {
      messages := [];
    }

    method Append(message: Message) returns (stored: StoredMessage)
      modifies this
      ensures messages == old(messages) + [message]
      ensures stored == Stored(messages, |messages|)
    {
      messages := messages + [message];
      stored := StoredMessage(|messages|, message, "");
    }

    method DirectHistory(userId: nat, peerId: nat) returns (result: seq<Message>)
      ensures result == Plain(Matching(messages, Between(userId, peerId), 0, |messages|))
    {
      result := [];
      for i := 0 to |messages|
        invariant result == Plain(Matching(messages, Between(userId, peerId), 0, i))
      {
        var m := messages[i];
        if m.kind == DirectChat &&
           ((m.senderId == userId && m.receiverId == peerId) || (m.senderId == peerId && m.receiverId == userId)) {
          result := result + [m];
        }
      }
    }

    method GroupHistory(groupId: nat) returns (result: seq<Message>)
      ensures result == Plain(Matching(messages, InGroup(groupId), 0, |messages|))
    {
      result := [];
      for i := 0 to |messages|
        invariant result == Plain(Matching(messages, InGroup(groupId), 0, i))
      {
        var m := messages[i];
        if m.kind == GroupChat && m.receiverId == groupId {
          result := result + [m];
        }
      }
    }

    method DirectHistoryPage(userId: nat, peerId: nat, limitArgument: nat, beforeId: nat)
      returns (result: seq<StoredMessage>)
      ensures result == Page(messages, Between(userId, peerId), limitArgument, beforeId)
    {
      var limit := limitArgument;
      if limit == 0 {
        limit := 20;
      }
      ghost var q, end := Between(userId, peerId), Upto(messages, beforeId);
      result := [];
      var index: nat := |messages|;
      while index > 0 && |result| < limit
        invariant index <= |messages| && |result| <= limit
        invariant result == Reversed(Matching(messages, q, Least(index, end), end))
      {
        var m, id := messages[index - 1], index;
        index := index - 1;
        if beforeId > 0 && id >= beforeId {
          continue;
        }
        PageTurn(messages, q, id, end);
        if m.kind == DirectChat &&
           ((m.senderId == userId && m.receiverId == peerId) || (m.senderId == peerId && m.receiverId == userId)) {
          result := result + [StoredMessage(id, m, "")];
        }
      }
      PageDone(messages, q, Least(index, end), end, limit);
    }

    method GroupHistoryPage(groupId: nat, limitArgument: nat, beforeId: nat) returns (result: seq<StoredMessage>)
      ensures result == Page(messages, InGroup(groupId), limitArgument, beforeId)
    {
      var limit := limitArgument;
      if limit == 0 {
        limit := 20;
      }
      ghost var q, end := InGroup(groupId), Upto(messages, beforeId);
      result := [];
      var index: nat := |messages|;
      while index > 0 && |result| < limit
        invariant index <= |messages| && |result| <= limit
        invariant result == Reversed(Matching(messages, q, Least(index, end), end))
      {
        var m, id := messages[index - 1], index;
        index := index - 1;
        if beforeId > 0 && id >= beforeId {
          continue;
        }
        PageTurn(messages, q, id, end);
        if m.kind == GroupChat && m.receiverId == groupId {
          result := result + [StoredMessage(id, m, "")];
        }
      }
      PageDone(messages, q, Least(index, end), end, limit);
    }

    method FindUnread(userId: nat, groupIds: seq<nat>, lastSeen: nat, limitArgument: nat)
      returns (result: seq<StoredMessage>)
      ensures result == UnreadPage(messages, UnreadBy(userId, groupIds), lastSeen, limitArgument)
    {
      var limit := limitArgument;
      if limit == 0 {
        limit := 20;
      }
      var groups := set g | g in groupIds;
      ghost var q, start := UnreadBy(userId, groupIds), Least(lastSeen, |messages|);
      result := [];
      var index: nat := 0;
      while index < |messages| && |result| < limit
        invariant index <= |messages| && |result| <= limit
        invariant result == Matching(messages, q, start, if index < start then start else index)
      {
        var m, id := messages[index], index + 1;
        index := index + 1;
        if id <= lastSeen {
          continue;
        }
        var direct := m.kind == DirectChat && m.receiverId == userId;
        var group := m.kind == GroupChat && m.senderId != userId && m.receiverId in groups;
        if direct || group {
          result := result + [StoredMessage(id, m, "")];
        }
      }
      MatchingSplits(messages, q, start, if index < start then start else index, |messages|);
    }
  }
}
