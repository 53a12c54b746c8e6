/** A client that pages through a conversation or drains its unread messages, while other messages
    arrive between its requests. */
module Paging {
  import opened MessageStore

  const MAX_HISTORY_LIMIT: nat := 100

  function NormalizeHistoryLimit(limit: nat): (n: nat)
    ensures 1 <= n <= MAX_HISTORY_LIMIT && (limit == 0 ==> n == 20)
    ensures 1 <= limit <= MAX_HISTORY_LIMIT ==> n == limit
    ensures MAX_HISTORY_LIMIT < limit ==> n == MAX_HISTORY_LIMIT
  {
    if limit == 0 then DEFAULT_LIMIT else Least(limit, MAX_HISTORY_LIMIT)
  }

  /** The items of one answer, oldest first, and its end marker. */
  datatype PageReply = PageReply(items: seq<StoredMessage>, hasMore: bool, next: nat)

  /** `logs(k)` is the log when the k-th request is served. */
  ghost predicate Growing(logs: nat -> seq<Message>) {
    forall k: nat :: logs(k) <= logs(k + 1)
  }

  /** Every answer but the last said that there is more. */
  predicate MoreUntilLast(pages: seq<PageReply>) {
    pages != [] && forall i :: 0 <= i < |pages| ==> (pages[i].hasMore <==> i < |pages| - 1)
  }

  lemma OnePage(r: PageReply)
    requires !r.hasMore
    ensures MoreUntilLast([r])
  {
  }

  lemma OneMorePage(r: PageReply, rest: seq<PageReply>)
    requires r.hasMore && MoreUntilLast(rest)
    ensures MoreUntilLast([r] + rest)
  {
  }

  // ------------------------------------------------------------ history

  /** The answer to one history request: the page in id order, and its lowest id as the next cursor. */
  function HistoryPage(log: seq<Message>, q: Query, limit: nat, beforeId: nat): (r: PageReply)
    ensures r.hasMore ==> r.next >= 1 && (beforeId > 0 ==> r.next < beforeId)
  {
    MatchingIsExact(log, q, 0, Upto(log, beforeId));
    var n := NormalizeHistoryLimit(limit);
    var items := Reversed(Page(log, q, n, beforeId));
    PageReply(items, |items| == n, if items == [] then 0 else items[0].id)
  }

  /** Ask, and while there is more ask again with the cursor of the last answer. */
  function HistoryClient(
    logs: nat -> seq<Message>, k: nat, q: Query, limits: nat -> nat, beforeId: nat): (pages: seq<PageReply>)
    ensures pages != []
    decreases beforeId == 0, beforeId
  {
    var r := HistoryPage(logs(k), q, limits(k), beforeId);
    if r.hasMore then [r] + HistoryClient(logs, k + 1, q, limits, r.next) else [r]
  }

  /** The pages put together, the last one first. */
  function Gathered(pages: seq<PageReply>): seq<StoredMessage> {
    if pages == [] then [] else Gathered(pages[1..]) + pages[0].items
  }

  lemma ReversedTwice(s: seq<StoredMessage>)
    ensures Reversed(Reversed(s)) == s
  {
  }

  lemma HistoryItems(log: seq<Message>, q: Query, limit: nat, beforeId: nat)
    ensures HistoryPage(log, q, limit, beforeId).items ==
            Last(Matching(log, q, 0, Upto(log, beforeId)), NormalizeHistoryLimit(limit))
  {
    ReversedTwice(Last(Matching(log, q, 0, Upto(log, beforeId)), NormalizeHistoryLimit(limit)));
  }

  /** The messages found before the one at position `i` are those below its id. */
  lemma FoundBefore(log: seq<Message>, q: Query, end: nat, i: nat)
    requires end <= |log| && i < |Matching(log, q, 0, end)|
    ensures var found := Matching(log, q, 0, end);
            1 <= found[i].id <= end && Matching(log, q, 0, found[i].id - 1) == found[..i]
  {
    var found := Matching(log, q, 0, end);
    MatchingIsExact(log, q, 0, end);
    var id := found[i].id;
    MatchingSplits(log, q, 0, id - 1, end);
    var below, above := Matching(log, q, 0, id - 1), Matching(log, q, id - 1, end);
    MatchingIsExact(log, q, 0, id - 1);
    MatchingIsExact(log, q, id - 1, end);
    SplitPoint(found, below, above, i);
  }

  lemma SplitPoint(found: seq<StoredMessage>, below: seq<StoredMessage>, above: seq<StoredMessage>, i: nat)
    requires found == below + above && i < |found|
    requires forall j :: 0 <= j < |below| ==> below[j].id < found[i].id
    requires forall j :: 0 <= j < |above| ==> found[i].id <= above[j].id
    requires forall j, k :: 0 <= j < k < |found| ==> found[j].id < found[k].id
    ensures below == found[..i]
  {
    assert forall j :: 0 <= j < |below| ==> found[j] == below[j];
    assert forall j :: |below| <= j < |found| ==> found[j] == above[j - |below|];
    var edge := found[Least(|below|, i)];
  }

  /** An answer and everything below its cursor are everything below the cursor it was asked with. */
  lemma HistoryStep(log: seq<Message>, q: Query, limit: nat, beforeId: nat)
    ensures var r := HistoryPage(log, q, limit, beforeId);
            Matching(log, q, 0, Upto(log, beforeId)) ==
            (if r.hasMore then Matching(log, q, 0, Upto(log, r.next)) else []) + r.items
  {
    hide Matching, Reversed, Page;
    var r, n := HistoryPage(log, q, limit, beforeId), NormalizeHistoryLimit(limit);
    var found := Matching(log, q, 0, Upto(log, beforeId));
    HistoryItems(log, q, limit, beforeId);
    if r.hasMore {
      assert r.items[0] == found[|found| - n];
      FoundBefore(log, q, Upto(log, beforeId), |found| - n);
    }
  }

  lemma {:induction false} PagesAreTheRest(logs: nat -> seq<Message>, k: nat, q: Query, limits: nat -> nat, beforeId: nat)
    requires Growing(logs)
    ensures Gathered(HistoryClient(logs, k, q, limits, beforeId)) == Matching(logs(k), q, 0, Upto(logs(k), beforeId))
    decreases beforeId == 0, beforeId
  {
    hide HistoryPage, Matching;
    var r := HistoryPage(logs(k), q, limits(k), beforeId);
    HistoryStep(logs(k), q, limits(k), beforeId);
    if r.hasMore {
      PagesAreTheRest(logs, k + 1, q, limits, r.next);
      CursorInLog(logs(k), q, limits(k), beforeId);
      MatchingIgnoresAppends(logs(k), logs(k + 1), q, 0, r.next - 1);
      assert ([r] + HistoryClient(logs, k + 1, q, limits, r.next))[1..] == HistoryClient(logs, k + 1, q, limits, r.next);
    } else {
      assert [r][1..] == [];
    }
  }

  lemma CursorInLog(log: seq<Message>, q: Query, limit: nat, beforeId: nat)
    ensures HistoryPage(log, q, limit, beforeId).next <= |log|
  {
    MatchingIsExact(log, q, 0, Upto(log, beforeId));
    HistoryItems(log, q, limit, beforeId);
  }

  lemma {:induction false} CursorsDecrease(
    logs: nat -> seq<Message>, k: nat, q: Query, limits: nat -> nat, beforeId: nat, i: nat)
    requires i < |HistoryClient(logs, k, q, limits, beforeId)| - 1
    ensures var pages := HistoryClient(logs, k, q, limits, beforeId);
            && pages[i].hasMore && (beforeId > 0 ==> pages[i].next < beforeId)
            && (i > 0 ==> pages[i].next < pages[i - 1].next)
    decreases i
  {
    var r := HistoryPage(logs(k), q, limits(k), beforeId);
    if i > 0 {
      CursorsDecrease(logs, k + 1, q, limits, r.next, i - 1);
    }
  }

  lemma {:induction false} LastHasNoMore(logs: nat -> seq<Message>, k: nat, q: Query, limits: nat -> nat, beforeId: nat)
    ensures var pages := HistoryClient(logs, k, q, limits, beforeId); !pages[|pages| - 1].hasMore
    decreases beforeId == 0, beforeId
  {
    var r := HistoryPage(logs(k), q, limits(k), beforeId);
    if r.hasMore {
      LastHasNoMore(logs, k + 1, q, limits, r.next);
    }
  }

  /** Whatever limits the client asks for and whatever is appended between its requests: the cursor
      strictly decreases until an answer has no more, and the pages put together are the conversation
      as of the first request. */
  lemma HistoryPagingIsComplete(logs: nat -> seq<Message>, q: Query, limits: nat -> nat)
    requires Growing(logs)
    ensures var pages := HistoryClient(logs, 0, q, limits, 0);
            && Gathered(pages) == Matching(logs(0), q, 0, |logs(0)|)
            && Exactly(Gathered(pages), logs(0), q, 0, |logs(0)|)
            && MoreUntilLast(pages)
            && (forall i :: 0 < i < |pages| - 1 ==> pages[i].next < pages[i - 1].next)
  {
    hide HistoryClient, Matching, Gathered, Exactly;
    var pages := HistoryClient(logs, 0, q, limits, 0);
    PagesAreTheRest(logs, 0, q, limits, 0);
    MatchingIsExact(logs(0), q, 0, |logs(0)|);
    LastHasNoMore(logs, 0, q, limits, 0);
    forall i | 0 <= i < |pages| - 1 ensures pages[i].hasMore && (i > 0 ==> pages[i].next < pages[i - 1].next) {
      CursorsDecrease(logs, 0, q, limits, 0, i);
    }
  }

  /** `has_more = false` means that nothing older is left. */
  lemma NoMoreMeansNothingOlder(log: seq<Message>, q: Query, limit: nat, beforeId: nat)
    requires !HistoryPage(log, q, limit, beforeId).hasMore
    ensures Exactly(HistoryPage(log, q, limit, beforeId).items, log, q, 0, Upto(log, beforeId))
  {
    HistoryStep(log, q, limit, beforeId);
    MatchingIsExact(log, q, 0, Upto(log, beforeId));
    assert [] + HistoryPage(log, q, limit, beforeId).items == HistoryPage(log, q, limit, beforeId).items;
  }

  // ------------------------------------------------------------ unread

  /** The answer to one unread request; the next cursor is the highest id seen. */
  function UnreadReply(log: seq<Message>, q: Query, limit: nat, lastSeen: nat): (r: PageReply)
    ensures r.hasMore ==> lastSeen < r.next <= |log|
  {
    MatchingIsExact(log, q, Least(lastSeen, |log|), |log|);
    var n := NormalizeHistoryLimit(limit);
    var items := UnreadPage(log, q, lastSeen, n);
    PageReply(items, |items| == n, if items == [] then lastSeen else items[|items| - 1].id)
  }

  /** From request `settled` on, nothing is appended any more. */
  ghost predicate Settles(logs: nat -> seq<Message>, settled: nat) {
    forall k: nat :: settled <= k ==> logs(k) == logs(settled)
  }

  ghost function UnreadClient(
    logs: nat -> seq<Message>, settled: nat, k: nat, q: Query, limits: nat -> nat, lastSeen: nat): (pages: seq<PageReply>)
    requires Settles(logs, settled)
    ensures pages != []
    decreases Ahead(settled, k), Ahead(|logs(settled)|, lastSeen)
  {
    var r := UnreadReply(logs(k), q, limits(k), lastSeen);
    if r.hasMore then [r] + UnreadClient(logs, settled, k + 1, q, limits, r.next) else [r]
  }

  function Ahead(end: nat, at: nat): nat {
    if at < end then end - at else 0
  }

  function InOrder(pages: seq<PageReply>): seq<StoredMessage> {
    if pages == [] then [] else pages[0].items + InOrder(pages[1..])
  }

  /** The messages found up to the one at position `i` are those up to its id. */
  lemma FoundUpTo(log: seq<Message>, q: Query, start: nat, i: nat)
    requires start <= |log| && i < |Matching(log, q, start, |log|)|
    ensures var found := Matching(log, q, start, |log|);
            start < found[i].id <= |log| && Matching(log, q, start, found[i].id) == found[..i + 1]
  {
    var found := Matching(log, q, start, |log|);
    MatchingIsExact(log, q, start, |log|);
    var id := found[i].id;
    MatchingSplits(log, q, start, id, |log|);
    MatchingIsExact(log, q, start, id);
    MatchingIsExact(log, q, id, |log|);
    SplitAfter(found, Matching(log, q, start, id), Matching(log, q, id, |log|), i);
  }

  lemma SplitAfter(found: seq<StoredMessage>, upTo: seq<StoredMessage>, above: seq<StoredMessage>, i: nat)
    requires found == upTo + above && i < |found|
    requires forall j :: 0 <= j < |upTo| ==> upTo[j].id <= found[i].id
    requires forall j :: 0 <= j < |above| ==> found[i].id < above[j].id
    requires forall j, k :: 0 <= j < k < |found| ==> found[j].id < found[k].id
    ensures upTo == found[..i + 1]
  {
    assert forall j :: 0 <= j < |upTo| ==> found[j] == upTo[j];
    assert forall j :: |upTo| <= j < |found| ==> found[j] == above[j - |upTo|];
    var edge := found[Least(i + 1, |found| - 1)];
  }

  /** One answer holds exactly the unread messages from its cursor to the next one; when there is no
      more, exactly those to the end of the log. */
  lemma UnreadStep(log: seq<Message>, q: Query, limit: nat, lastSeen: nat)
    ensures var r, start := UnreadReply(log, q, limit, lastSeen), Least(lastSeen, |log|);
            var end := Least(r.next, |log|);
            start <= end && r.items == Matching(log, q, start, end) &&
            (!r.hasMore ==> Matching(log, q, end, |log|) == [])
  {
    var r, n, start := UnreadReply(log, q, limit, lastSeen), NormalizeHistoryLimit(limit), Least(lastSeen, |log|);
    var found := Matching(log, q, start, |log|);
    if r.items != [] {
      FoundUpTo(log, q, start, |r.items| - 1);
      MatchingSplits(log, q, start, r.next, |log|);
    }
  }

  lemma {:induction false} UnreadPagesCover(
    logs: nat -> seq<Message>, settled: nat, k: nat, q: Query, limits: nat -> nat, lastSeen: nat, longer: seq<Message>)
    requires Growing(logs) && Settles(logs, settled)
    requires forall i: nat :: logs(i) <= longer
    ensures var pages := UnreadClient(logs, settled, k, q, limits, lastSeen);
            InOrder(pages) + Matching(longer, q, Least(pages[|pages| - 1].next, |longer|), |longer|) ==
            Matching(longer, q, Least(lastSeen, |longer|), |longer|)
    decreases Ahead(settled, k), Ahead(|logs(settled)|, lastSeen)
  {
    hide Matching, UnreadReply;
    var log, r := logs(k), UnreadReply(logs(k), q, limits(k), lastSeen);
    UnreadStepLonger(log, q, limits(k), lastSeen, longer);
    if r.hasMore {
      var rest := UnreadClient(logs, settled, k + 1, q, limits, r.next);
      UnreadPagesCover(logs, settled, k + 1, q, limits, r.next, longer);
      assert ([r] + rest)[1..] == rest;
      var tail := Matching(longer, q, Least(rest[|rest| - 1].next, |longer|), |longer|);
      assert (r.items + InOrder(rest)) + tail == r.items + (InOrder(rest) + tail);
    } else {
      assert [r][1..] == [];
      assert r.items + [] == r.items;
    }
  }

  lemma UnreadStepLonger(log: seq<Message>, q: Query, limit: nat, lastSeen: nat, longer: seq<Message>)
    requires log <= longer
    ensures var r := UnreadReply(log, q, limit, lastSeen);
            r.items + Matching(longer, q, Least(r.next, |longer|), |longer|) ==
            Matching(longer, q, Least(lastSeen, |longer|), |longer|)
  {
    var r, start := UnreadReply(log, q, limit, lastSeen), Least(lastSeen, |log|);
    UnreadStep(log, q, limit, lastSeen);
    if r.items == [] {
      var rest := Matching(longer, q, Least(r.next, |longer|), |longer|);
      assert [] + rest == rest;
    } else {
      FoundUpTo(log, q, start, |r.items| - 1);
      MatchingIgnoresAppends(log, longer, q, start, r.next);
      MatchingSplits(longer, q, start, r.next, |longer|);
    }
  }

  lemma {:induction false} GrowsTo(logs: nat -> seq<Message>, i: nat, j: nat)
    requires Growing(logs) && i <= j
    ensures logs(i) <= logs(j)
    decreases j
  {
    if i < j {
      GrowsTo(logs, i, j - 1);
      assert logs(j - 1) <= logs(j - 1 + 1);
    }
  }

  lemma {:induction false} UnreadPagesAre(
    logs: nat -> seq<Message>, settled: nat, k: nat, q: Query, limits: nat -> nat, lastSeen: nat)
    requires Growing(logs) && Settles(logs, settled)
    ensures var pages := UnreadClient(logs, settled, k, q, limits, lastSeen);
            var log := logs(k + |pages| - 1);
            InOrder(pages) == Matching(log, q, Least(lastSeen, |log|), |log|)
    decreases Ahead(settled, k), Ahead(|logs(settled)|, lastSeen)
  {
    hide Matching, UnreadReply;
    var r := UnreadReply(logs(k), q, limits(k), lastSeen);
    UnreadStep(logs(k), q, limits(k), lastSeen);
    if r.hasMore {
      var rest := UnreadClient(logs, settled, k + 1, q, limits, r.next);
      var log := logs(k + 1 + |rest| - 1);
      UnreadPagesAre(logs, settled, k + 1, q, limits, r.next);
      assert ([r] + rest)[1..] == rest;
      GrowsTo(logs, k, k + |rest|);
      UnreadStepLonger(logs(k), q, limits(k), lastSeen, log);
    } else {
      assert [r][1..] == [] && r.items + [] == r.items;
      var log := logs(k);
      MatchingSplits(log, q, Least(lastSeen, |log|), Least(r.next, |log|), |log|);
    }
  }

  lemma {:induction false} UnreadPagesEnd(
    logs: nat -> seq<Message>, settled: nat, k: nat, q: Query, limits: nat -> nat, lastSeen: nat)
    requires Settles(logs, settled)
    ensures MoreUntilLast(UnreadClient(logs, settled, k, q, limits, lastSeen))
    decreases Ahead(settled, k), Ahead(|logs(settled)|, lastSeen)
  {
    hide UnreadReply, MoreUntilLast;
    var r := UnreadReply(logs(k), q, limits(k), lastSeen);
    if r.hasMore {
      UnreadPagesEnd(logs, settled, k + 1, q, limits, r.next);
      OneMorePage(r, UnreadClient(logs, settled, k + 1, q, limits, r.next));
    } else {
      OnePage(r);
    }
  }

  /** With fixed memberships the drain ends, and it has returned every unread message above the start
      cursor, each once, in id order. */
  lemma UnreadDrainIsComplete(logs: nat -> seq<Message>, settled: nat, q: Query, limits: nat -> nat, lastSeen: nat)
    requires Growing(logs) && Settles(logs, settled)
    ensures var pages := UnreadClient(logs, settled, 0, q, limits, lastSeen);
            var log := logs(|pages| - 1);
            && InOrder(pages) == Matching(log, q, Least(lastSeen, |log|), |log|)
            && Exactly(InOrder(pages), log, q, Least(lastSeen, |log|), |log|)
            && MoreUntilLast(pages)
  {
    hide Exactly;
    var pages := UnreadClient(logs, settled, 0, q, limits, lastSeen);
    var log := logs(|pages| - 1);
    UnreadPagesAre(logs, settled, 0, q, limits, lastSeen);
    UnreadPagesEnd(logs, settled, 0, q, limits, lastSeen);
    MatchingIsExact(log, q, Least(lastSeen, |log|), |log|);
  }

  /** The final cursor skips nothing: what it leaves unread in any later log, after the pages of the
      drain, is everything above the start cursor. */
  lemma FinalCursorSkipsNothing(
    logs: nat -> seq<Message>, settled: nat, q: Query, limits: nat -> nat, lastSeen: nat, later: seq<Message>)
    requires Growing(logs) && Settles(logs, settled) && logs(settled) <= later
    ensures var pages := UnreadClient(logs, settled, 0, q, limits, lastSeen);
            InOrder(pages) + Matching(later, q, Least(pages[|pages| - 1].next, |later|), |later|) ==
            Matching(later, q, Least(lastSeen, |later|), |later|)
  {
    forall i: nat ensures logs(i) <= later {
      if i < settled { GrowsTo(logs, i, settled); } else { assert logs(i) == logs(settled); }
    }
    UnreadPagesCover(logs, settled, 0, q, limits, lastSeen, later);
  }
}
