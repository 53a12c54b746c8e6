/** The packed conversation key of the `messages` table: when it stands for the pair of users, how the
    migration and every insert keep it right, and when the indexed queries find what the simple ones
    do. Ids are naturals; the packing is the 64-bit shift and bitwise or of the source, bit by bit. */
module ConversationIndex {
  import opened BitWords
  import opened MessageStore

  datatype Row = Row(
    id: nat, conversationType: nat, conversationId: nat, kind: string, senderId: nat, receiverId: nat, body: string)

  function Low(a: nat, b: nat): nat {
    if b < a then b else a
  }

  function High(a: nat, b: nat): nat {
    if a < b then b else a
  }

  function MakeDirectConversationId(a: nat, b: nat): nat {
    Pack(Low(a, b), High(a, b))
  }

  function ConversationTypeFor(kind: MessageType): nat {
    match kind
    case DirectChat => 1
    case GroupChat => 2
    case _ => 0
  }

  function ConversationIdFor(kind: MessageType, senderId: nat, receiverId: nat): nat {
    match kind
    case DirectChat => MakeDirectConversationId(senderId, receiverId)
    case GroupChat => receiverId
    case _ => 0
  }

  /** What is written to the `type` column. */
  function TypeColumn(kind: MessageType): string {
    match kind
    case DirectChat => "DirectChat"
    case GroupChat => "GroupChat"
    case GroupJoin => "GroupJoin"
    case GroupLeave => "GroupLeave"
    case _ => "System"
  }

  // ------------------------------------------------------------ the key

  predicate SamePair(a: nat, b: nat, c: nat, d: nat) {
    (a == c && b == d) || (a == d && b == c)
  }

  lemma LowHighDetermine(a: nat, b: nat, c: nat, d: nat)
    ensures Low(a, b) == Low(c, d) && High(a, b) == High(c, d) <==> SamePair(a, b, c, d)
  {
  }

  /** Below 2^32 the key determines the unordered pair. */
  lemma KeyIsInjective(a: nat, b: nat, c: nat, d: nat)
    requires a < TWO_TO_THE_32 && b < TWO_TO_THE_32 && c < TWO_TO_THE_32 && d < TWO_TO_THE_32
    ensures MakeDirectConversationId(a, b) == MakeDirectConversationId(c, d) <==> SamePair(a, b, c, d)
  {
    hide Pack;
    PackSmall(Low(a, b), High(a, b));
    PackSmall(Low(c, d), High(c, d));
    LowHighDetermine(a, b, c, d);
  }

  /** A user id as they are handed out, from 1 up. */
  predicate UserId(id: nat, bound: nat) {
    1 <= id < bound
  }

  ghost predicate InjectiveBelow(bound: nat) {
    forall a: nat, b: nat, c: nat, d: nat |
      UserId(a, bound) && UserId(b, bound) && UserId(c, bound) && UserId(d, bound) ::
      MakeDirectConversationId(a, b) == MakeDirectConversationId(c, d) ==> SamePair(a, b, c, d)
  }

  /** Users 1 and 2^32, and user 2^32 with itself. */
  lemma KeysCollide()
    ensures MakeDirectConversationId(1, TWO_TO_THE_32) == MakeDirectConversationId(TWO_TO_THE_32, TWO_TO_THE_32)
  {
    hide Pack;
    PackOverlaps();
    PackShiftedOut();
  }

  /** 2^32 is the exact bound: one id more and two pairs share a key. */
  lemma KeyBoundIsExact(bound: nat)
    ensures InjectiveBelow(bound) <==> bound <= TWO_TO_THE_32
  {
    hide MakeDirectConversationId;
    if bound <= TWO_TO_THE_32 {
      forall a: nat, b: nat, c: nat, d: nat |
        UserId(a, bound) && UserId(b, bound) && UserId(c, bound) && UserId(d, bound) &&
        MakeDirectConversationId(a, b) == MakeDirectConversationId(c, d)
        ensures SamePair(a, b, c, d)
      {
        KeyIsInjective(a, b, c, d);
      }
    } else {
      KeysCollide();
      assert UserId(1, bound) && UserId(TWO_TO_THE_32, bound);
      assert !SamePair(1, TWO_TO_THE_32, TWO_TO_THE_32, TWO_TO_THE_32);
    }
  }

  // ------------------------------------------------------------ the columns

  /** The CASE expressions of the migration, which go by the text in the `type` column. */
  function MigratedType(kind: string): nat {
    if kind == "DirectChat" then 1 else if kind == "GroupChat" then 2 else 0
  }

  function MigratedId(kind: string, senderId: nat, receiverId: nat): nat {
    if kind == "DirectChat" then MakeDirectConversationId(senderId, receiverId)
    else if kind == "GroupChat" then receiverId else 0
  }

  /** The row's type column names kind `kind`, and both conversation columns are what the functions
      used by the queries give for it. */
  predicate IndexedAs(row: Row, kind: MessageType) {
    && row.kind == TypeColumn(kind)
    && row.conversationType == ConversationTypeFor(kind)
    && row.conversationId == ConversationIdFor(kind, row.senderId, row.receiverId)
  }

  ghost predicate WellIndexed(row: Row) {
    exists kind :: IndexedAs(row, kind)
  }

  ghost predicate Known(row: Row) {
    exists kind :: row.kind == TypeColumn(kind)
  }

  /** Rows in id order, as AUTO_INCREMENT hands ids out. */
  ghost predicate Table(rows: seq<Row>) {
    && (forall i :: 0 <= i < |rows| ==> Known(rows[i]))
    && (forall i, j :: 0 <= i < j < |rows| ==> rows[i].id < rows[j].id)
  }

  function Migrated(row: Row): Row {
    if row.conversationType == 0 then
      row.(conversationType := MigratedType(row.kind), conversationId := MigratedId(row.kind, row.senderId, row.receiverId))
    else row
  }

  function Migrate(rows: seq<Row>): seq<Row> {
    seq(|rows|, i requires 0 <= i < |rows| => Migrated(rows[i]))
  }

  function Insert(rows: seq<Row>, id: nat, kind: MessageType, senderId: nat, receiverId: nat, body: string): seq<Row> {
    rows + [Row(id, ConversationTypeFor(kind), ConversationIdFor(kind, senderId, receiverId), TypeColumn(kind),
                senderId, receiverId, body)]
  }

  ghost predicate AllIndexed(rows: seq<Row>) {
    forall i :: 0 <= i < |rows| ==> WellIndexed(rows[i])
  }

  lemma ColumnsAgree(kind: MessageType, senderId: nat, receiverId: nat)
    ensures MigratedType(TypeColumn(kind)) == ConversationTypeFor(kind)
    ensures MigratedId(TypeColumn(kind), senderId, receiverId) == ConversationIdFor(kind, senderId, receiverId)
  {
    hide MakeDirectConversationId;
  }

  lemma MigrationIndexes(row: Row)
    requires Known(row)
    ensures WellIndexed(Migrated(row)) <==> row.conversationType == 0 || WellIndexed(row)
  {
    hide MigratedType, MigratedId, ConversationTypeFor, ConversationIdFor, TypeColumn;
    var kind :| row.kind == TypeColumn(kind);
    if row.conversationType == 0 {
      ColumnsAgree(kind, row.senderId, row.receiverId);
      assert IndexedAs(Migrated(row), kind);
    }
  }

  /** The UPDATE leaves every row right exactly when each row it passes over already was; in particular
      after ALTER has just added the columns with default 0. */
  lemma MigrationEstablishes(rows: seq<Row>)
    requires Table(rows)
    ensures Table(Migrate(rows))
    ensures AllIndexed(Migrate(rows)) <==>
            forall i :: 0 <= i < |rows| ==> rows[i].conversationType == 0 || WellIndexed(rows[i])
    ensures |Migrate(rows)| == |rows| && forall i :: 0 <= i < |rows| ==> SameMessage(Migrate(rows)[i], rows[i])
  {
    hide WellIndexed, Migrated, SameMessage;
    var migrated := Migrate(rows);
    forall i | 0 <= i < |rows|
      ensures migrated[i] == Migrated(rows[i]) && migrated[i].id == rows[i].id && Known(migrated[i])
      ensures WellIndexed(migrated[i]) <==> rows[i].conversationType == 0 || WellIndexed(rows[i])
      ensures SameMessage(migrated[i], rows[i])
    {
      assert Known(rows[i]);
      MigratedKeeps(rows[i]);
      MigrationIndexes(rows[i]);
    }
  }

  /** The rows differ at most in the two conversation columns. */
  predicate SameMessage(a: Row, b: Row) {
    a.id == b.id && a.kind == b.kind && a.senderId == b.senderId && a.receiverId == b.receiverId && a.body == b.body
  }

  lemma MigratedKeeps(row: Row)
    ensures Migrated(row).id == row.id && Migrated(row).kind == row.kind && SameMessage(Migrated(row), row)
  {
  }

  lemma InsertKeepsIndex(rows: seq<Row>, id: nat, kind: MessageType, senderId: nat, receiverId: nat, body: string)
    requires Table(rows) && AllIndexed(rows) && forall i :: 0 <= i < |rows| ==> rows[i].id < id
    ensures Table(Insert(rows, id, kind, senderId, receiverId, body))
    ensures AllIndexed(Insert(rows, id, kind, senderId, receiverId, body))
    ensures var more := Insert(rows, id, kind, senderId, receiverId, body);
            && |more| == |rows| + 1 && rows <= more && IndexedAs(more[|rows|], kind)
            && SameMessage(more[|rows|], Row(id, 0, 0, TypeColumn(kind), senderId, receiverId, body))
  {
    hide ConversationTypeFor, ConversationIdFor, TypeColumn;
    var more := Insert(rows, id, kind, senderId, receiverId, body);
    assert more[|rows|].kind == TypeColumn(kind);
    assert IndexedAs(more[|rows|], kind);
  }

  datatype Change =
    | Upgrade
    | Append(id: nat, kind: MessageType, senderId: nat, receiverId: nat, body: string)

  /** The table after the server was started and used for a while, possibly restarted. */
  function After(rows: seq<Row>, changes: seq<Change>): seq<Row> {
    if changes == [] then rows
    else
      var before := After(rows, changes[..|changes| - 1]);
      match changes[|changes| - 1]
      case Upgrade => Migrate(before)
      case Append(id, kind, senderId, receiverId, body) => Insert(before, id, kind, senderId, receiverId, body)
  }

  /** AUTO_INCREMENT gives every inserted row an id above all others. */
  ghost predicate FreshIds(rows: seq<Row>, changes: seq<Change>) {
    forall k :: 0 <= k < |changes| && changes[k].Append? ==>
      forall i :: 0 <= i < |After(rows, changes[..k])| ==> After(rows, changes[..k])[i].id < changes[k].id
  }

  /** From the first migration of a legacy table on, every row is well indexed. */
  lemma {:induction false} AlwaysIndexed(rows: seq<Row>, changes: seq<Change>)
    requires Table(rows) && forall i :: 0 <= i < |rows| ==> rows[i].conversationType == 0
    requires changes != [] && changes[0] == Upgrade && FreshIds(rows, changes)
    ensures Table(After(rows, changes)) && AllIndexed(After(rows, changes))
    decreases |changes|
  {
    hide Table, AllIndexed, Migrate, Insert;
    var front := changes[..|changes| - 1];
    if front == [] {
      MigrationEstablishes(rows);
    } else {
      FewerChanges(rows, changes);
      AlwaysIndexed(rows, front);
      AllowMigration(After(rows, front));
      MigrationEstablishes(After(rows, front));
      match changes[|changes| - 1]
      case Upgrade =>
      case Append(id, kind, senderId, receiverId, body) =>
        InsertKeepsIndex(After(rows, front), id, kind, senderId, receiverId, body);
    }
  }

  lemma AllowMigration(rows: seq<Row>)
    requires AllIndexed(rows)
    ensures forall i :: 0 <= i < |rows| ==> rows[i].conversationType == 0 || WellIndexed(rows[i])
  {
  }

  lemma FewerChanges(rows: seq<Row>, changes: seq<Change>)
    requires changes != [] && FreshIds(rows, changes)
    ensures FreshIds(rows, changes[..|changes| - 1])
  {
    var front := changes[..|changes| - 1];
    forall k | 0 <= k < |front| && front[k].Append?
      ensures forall i :: 0 <= i < |After(rows, front[..k])| ==> After(rows, front[..k])[i].id < front[k].id
    {
      assert front[..k] == changes[..k];
    }
  }

  // ------------------------------------------------------------ the queries

  /** The WHERE clauses; cursor 0 leaves out `id < ?`. */
  datatype Filter =
    | ByKey(conversationType: nat, conversationId: nat, beforeId: nat)
    | ByPair(a: nat, b: nat, beforeId: nat)
    | ByGroup(groupId: nat, beforeId: nat)

  predicate Exchanged(row: Row, a: nat, b: nat) {
    row.kind == "DirectChat" &&
    ((row.senderId == a && row.receiverId == b) || (row.senderId == b && row.receiverId == a))
  }

  predicate Selects(f: Filter, row: Row) {
    (f.beforeId > 0 ==> row.id < f.beforeId) &&
    match f
    case ByKey(conversationType, conversationId, _) =>
      row.conversationType == conversationType && row.conversationId == conversationId
    case ByPair(a, b, _) => Exchanged(row, a, b)
    case ByGroup(groupId, _) => row.kind == "GroupChat" && row.receiverId == groupId
  }

  function Select(rows: seq<Row>, f: Filter): seq<Row> {
    if rows == [] then []
    else
      var last := rows[|rows| - 1];
      Select(rows[..|rows| - 1], f) + if Selects(f, last) then [last] else []
  }

  /** ORDER BY id DESC LIMIT. */
  function Newest(rows: seq<Row>, limit: nat): seq<Row> {
    seq(Least(limit, |rows|), i requires 0 <= i < Least(limit, |rows|) => rows[|rows| - 1 - i])
  }

  /** The paged query by conversation key. */
  function IndexedPage(rows: seq<Row>, a: nat, b: nat, limit: nat, beforeId: nat): seq<Row> {
    Newest(Select(rows, ByKey(1, MakeDirectConversationId(a, b), beforeId)), LimitOrDefault(limit))
  }

  /** The first rows, newest first, of the query by sender and receiver below the cursor. */
  function PairPage(rows: seq<Row>, a: nat, b: nat, limit: nat, beforeId: nat): seq<Row> {
    Newest(Select(rows, ByPair(a, b, beforeId)), LimitOrDefault(limit))
  }

  lemma {:induction false} SelectSame(rows: seq<Row>, f: Filter, g: Filter)
    requires forall i :: 0 <= i < |rows| ==> Selects(f, rows[i]) == Selects(g, rows[i])
    ensures Select(rows, f) == Select(rows, g)
  {
    if rows != [] {
      SelectSame(rows[..|rows| - 1], f, g);
    }
  }

  /** The users of all direct messages; a group message has a group id for its receiver. */
  predicate UsersBelow(rows: seq<Row>, bound: nat) {
    forall i :: 0 <= i < |rows| && rows[i].kind == "DirectChat" ==>
      UserId(rows[i].senderId, bound) && UserId(rows[i].receiverId, bound)
  }

  lemma DirectRows(row: Row)
    requires WellIndexed(row)
    ensures row.conversationType == 1 <==> row.kind == "DirectChat"
    ensures row.kind == "DirectChat" ==> row.conversationId == MakeDirectConversationId(row.senderId, row.receiverId)
    ensures row.conversationType == 2 <==> row.kind == "GroupChat"
    ensures row.kind == "GroupChat" ==> row.conversationId == row.receiverId
  {
    hide MakeDirectConversationId;
  }

  /** With user ids below 2^32 the key finds exactly the pair's rows. */
  lemma IndexFindsPair(rows: seq<Row>, a: nat, b: nat, limit: nat, beforeId: nat)
    requires AllIndexed(rows) && UsersBelow(rows, TWO_TO_THE_32) && a < TWO_TO_THE_32 && b < TWO_TO_THE_32
    ensures IndexedPage(rows, a, b, limit, beforeId) == PairPage(rows, a, b, limit, beforeId)
  {
    hide MakeDirectConversationId, WellIndexed;
    var byKey, byPair := ByKey(1, MakeDirectConversationId(a, b), beforeId), ByPair(a, b, beforeId);
    forall i | 0 <= i < |rows| ensures Selects(byKey, rows[i]) == Selects(byPair, rows[i]) {
      DirectRows(rows[i]);
      if rows[i].kind == "DirectChat" {
        KeyIsInjective(rows[i].senderId, rows[i].receiverId, a, b);
      }
    }
    SelectSame(rows, byKey, byPair);
  }

  /** On every well-indexed table of users below the bound, both queries give the same page. */
  ghost predicate QueriesAgreeBelow(bound: nat) {
    forall rows: seq<Row>, a: nat, b: nat, limit: nat, beforeId: nat |
      AllIndexed(rows) && UsersBelow(rows, bound) && UserId(a, bound) && UserId(b, bound) ::
      IndexedPage(rows, a, b, limit, beforeId) == PairPage(rows, a, b, limit, beforeId)
  }

  /** 2^32 is the exact bound for the queries, too. */
  lemma QueryBoundIsExact(bound: nat)
    ensures QueriesAgreeBelow(bound) <==> bound <= TWO_TO_THE_32
  {
    hide IndexedPage, PairPage, MakeDirectConversationId, WellIndexed;
    if bound <= TWO_TO_THE_32 {
      forall rows: seq<Row>, a: nat, b: nat, limit: nat, beforeId: nat |
        AllIndexed(rows) && UsersBelow(rows, bound) && UserId(a, bound) && UserId(b, bound)
        ensures IndexedPage(rows, a, b, limit, beforeId) == PairPage(rows, a, b, limit, beforeId)
      {
        IndexFindsPair(rows, a, b, limit, beforeId);
      }
    } else {
      var rows := ForeignRow();
      assert UsersBelow(rows, bound) && UserId(1, bound) && UserId(TWO_TO_THE_32, bound);
      assert IndexedPage(rows, 1, TWO_TO_THE_32, 1, 0) != PairPage(rows, 1, TWO_TO_THE_32, 1, 0);
    }
  }

  /** A message of user 2^32 to itself shows up in the conversation of users 1 and 2^32. */
  lemma ForeignRow() returns (rows: seq<Row>)
    ensures |rows| == 1 && AllIndexed(rows) && rows[0].senderId == rows[0].receiverId == TWO_TO_THE_32
    ensures IndexedPage(rows, 1, TWO_TO_THE_32, 1, 0) != PairPage(rows, 1, TWO_TO_THE_32, 1, 0)
  {
    hide MakeDirectConversationId;
    var x := TWO_TO_THE_32;
    var row := Row(1, 1, MakeDirectConversationId(x, x), "DirectChat", x, x, "");
    rows := [row];
    assert IndexedAs(row, DirectChat);
    KeysCollide();
    assert rows[..0] == [];
    assert IndexedPage(rows, 1, x, 1, 0)[0] == row;
    assert !Exchanged(row, 1, x);
    assert Select(rows, ByPair(1, x, 0)) == [];
    assert |PairPage(rows, 1, x, 1, 0)| == 0;
  }

  lemma {:induction false} SelectKeeps(rows: seq<Row>, f: Filter, row: Row)
    requires row in rows && Selects(f, row)
    ensures row in Select(rows, f)
  {
    if rows[|rows| - 1] != row {
      SelectKeeps(rows[..|rows| - 1], f, row);
    }
  }

  /** Without any bound, the query by key selects every row that the query by pair selects. */
  lemma IndexMissesNothing(rows: seq<Row>, a: nat, b: nat, beforeId: nat, row: Row)
    requires AllIndexed(rows) && row in rows && Selects(ByPair(a, b, beforeId), row)
    ensures row in Select(rows, ByKey(1, MakeDirectConversationId(a, b), beforeId))
  {
    hide MakeDirectConversationId, WellIndexed;
    DirectRows(row);
    KeyIsSymmetric(a, b);
    SelectKeeps(rows, ByKey(1, MakeDirectConversationId(a, b), beforeId), row);
  }

  lemma KeyIsSymmetric(a: nat, b: nat)
    ensures MakeDirectConversationId(a, b) == MakeDirectConversationId(b, a)
  {
    hide Pack;
    LowHighDetermine(a, b, b, a);
  }

  /** The group query by key needs no bound: the key is the group id. */
  lemma IndexFindsGroup(rows: seq<Row>, groupId: nat, beforeId: nat)
    requires AllIndexed(rows)
    ensures Select(rows, ByKey(2, groupId, beforeId)) == Select(rows, ByGroup(groupId, beforeId))
  {
    hide WellIndexed;
    var byKey, byGroup := ByKey(2, groupId, beforeId), ByGroup(groupId, beforeId);
    forall i | 0 <= i < |rows| ensures Selects(byKey, rows[i]) == Selects(byGroup, rows[i]) {
      DirectRows(rows[i]);
    }
    SelectSame(rows, byKey, byGroup);
  }
}
