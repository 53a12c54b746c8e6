/** Replies and commands on top of the JSON subset: the formatter, its round trip through the parser,
    and the client commands. */
module Protocol {
  import opened Wrappers
  import opened Json
  import opened JsonGrammar

  // ------------------------------------------------------------ escaping

  function EscapeChar(c: char): string {
    match c
    case '"' => "\\\""
    case '\\' => "\\\\"
    case '\n' => "\\n"
    case '\r' => "\\r"
    case '\t' => "\\t"
    case _ => [c]
  }

  function EscapeJson(value: string): string {
    if value == "" then "" else EscapeChar(value[0]) + EscapeJson(value[1..])
  }

  method RunEscapeJson(value: string) returns (escaped: string)
    ensures escaped == EscapeJson(value)
  {
    escaped := "";
    for i := 0 to |value|
      invariant escaped + EscapeJson(value[i..]) == EscapeJson(value)
    {
      assert value[i..][1..] == value[i + 1..];
      assert escaped + (EscapeChar(value[i]) + EscapeJson(value[i + 1..])) ==
             (escaped + EscapeChar(value[i])) + EscapeJson(value[i + 1..]);
      escaped := escaped + EscapeChar(value[i]);
    }
    assert escaped + "" == escaped;
  }

  function PieceFor(c: char): Piece {
    match c
    case '"' => Escape('"')
    case '\\' => Escape('\\')
    case '\n' => Escape('n')
    case '\r' => Escape('r')
    case '\t' => Escape('t')
    case _ => Plain(c)
  }

  function PiecesFor(value: string): seq<Piece> {
    seq(|value|, i requires 0 <= i < |value| => PieceFor(value[i]))
  }

  /** The escaped text is a string literal that means the value. */
  lemma {:induction false} EscapedMeans(value: string)
    ensures PiecesOk(PiecesFor(value))
    ensures PiecesText(PiecesFor(value)) == EscapeJson(value) && PiecesMeaning(PiecesFor(value)) == value
  {
    if value != "" {
      EscapedMeans(value[1..]);
      assert PiecesFor(value)[1..] == PiecesFor(value[1..]);
    }
  }

  /** `parse_string` undoes `escape_json`: from the opening quote it reads the value back and stops
      behind the closing quote, whatever follows. */
  lemma ParseUndoesEscape(value: string, before: string, rest: string)
    ensures var input := before + ("\"" + EscapeJson(value) + "\"" + rest);
            ParseString(input, |before|) == Parsed(value, |before| + |EscapeJson(value)| + 2)
  {
    hide PiecesText, PiecesMeaning, EscapeJson, ParseString, At;
    var literal := "\"" + (EscapeJson(value) + "\"");
    var input := before + ("\"" + EscapeJson(value) + "\"" + rest);
    EscapedMeans(value);
    assert input == before + (literal + rest);
    AtWhole(input, before + (literal + rest));
    AtSplit(input, 0, before, literal + rest);
    AtSplit(input, |before|, literal, rest);
    assert "" + literal == literal;
    StringParses(input, |before|, "", PiecesFor(value));
  }

  // ------------------------------------------------------------ formatting

  datatype Field =
    | StringField(name: string, text: string)
    | NumberField(name: string, number: nat)
    | BoolField(name: string, flag: bool)

  function FieldText(f: Field): string {
    "\"" + f.name + "\":" +
    match f
    case StringField(_, text) => "\"" + EscapeJson(text) + "\""
    case NumberField(_, number) => Decimal(number)
    case BoolField(_, flag) => if flag then "true" else "false"
  }

  function FieldsText(fields: seq<Field>): string {
    if fields == [] then "" else "," + FieldText(fields[0]) + FieldsText(fields[1..])
  }

  /** `json_type`, the fields each behind a comma, `finish_json`. */
  function FormatJson(kind: string, fields: seq<Field>): string {
    "{\"type\":\"" + kind + "\"" + FieldsText(fields) + "}"
  }

  /** A name or type made of small letters and underscores, as all of them are; it needs no escaping. */
  predicate Simple(s: string) {
    forall i :: 0 <= i < |s| ==> 'a' <= s[i] <= 'z' || s[i] == '_'
  }

  predicate FieldOk(f: Field) {
    Simple(f.name) && (f.NumberField? ==> f.number < TWO_TO_THE_64)
  }

  function FieldValue(f: Field): Value {
    match f
    case StringField(_, text) => Text(text)
    case NumberField(_, number) => Number(number)
    case BoolField(_, flag) => Bool(flag)
  }

  function WithFields(start: Object, fields: seq<Field>): Object
    decreases |fields|
  {
    if fields == [] then start else WithFields(start[fields[0].name := FieldValue(fields[0])], fields[1..])
  }

  // ------------------------------------------------------------ the round trip

  function PlainPieces(s: string): seq<Piece> {
    seq(|s|, i requires 0 <= i < |s| => Plain(s[i]))
  }

  lemma {:induction false} PlainMeans(s: string)
    requires Simple(s)
    ensures PiecesOk(PlainPieces(s)) && PiecesText(PlainPieces(s)) == s && PiecesMeaning(PlainPieces(s)) == s
  {
    if s != "" {
      PlainMeans(s[1..]);
      assert PlainPieces(s)[1..] == PlainPieces(s[1..]);
    }
  }

  function TokenFor(f: Field): Token {
    match f
    case StringField(_, text) => StringToken(PiecesFor(text))
    case NumberField(_, number) => NumberToken(Decimal(number))
    case BoolField(_, flag) => BoolToken(flag)
  }

  function MemberFor(f: Field): Member {
    Member("", PlainPieces(f.name), "", "", TokenFor(f), "")
  }

  lemma TokenForMeans(f: Field)
    requires FieldOk(f)
    ensures TokenFor(f).WellFormed() && TokenFor(f).Meaning() == FieldValue(f)
    ensures FieldText(f) == "\"" + f.name + "\":" + TokenFor(f).Text()
  {
    match f
    case StringField(_, text) =>
      EscapedMeans(text);
      assert "\"" + EscapeJson(text) + "\"" == "\"" + (EscapeJson(text) + "\"");
    case NumberField(_, number) => DecimalRoundTrip(number);
    case BoolField(_, _) =>
  }

  lemma MemberForMeans(f: Field)
    requires FieldOk(f)
    ensures MemberFor(f).WellFormed() && MemberFor(f).Text() == FieldText(f)
    ensures PiecesMeaning(MemberFor(f).key) == f.name && MemberFor(f).value.Meaning() == FieldValue(f)
  {
    hide Token.Text;
    TokenForMeans(f);
    PlainMeans(f.name);
    KeyText(f.name);
    MemberLayout(StringToken(PlainPieces(f.name)).Text(), TokenFor(f).Text());
  }

  lemma KeyText(name: string)
    requires Simple(name)
    ensures StringToken(PlainPieces(name)).Text() == "\"" + name + "\""
  {
    PlainMeans(name);
  }

  lemma MemberLayout(key: string, value: string)
    ensures "" + (key + ("" + (":" + ("" + (value + ""))))) == key + ":" + value
  {
  }

  function MembersFor(fields: seq<Field>): seq<Member> {
    if fields == [] then [] else [MemberFor(fields[0])] + MembersFor(fields[1..])
  }

  lemma {:induction false} MembersForMean(start: Object, fields: seq<Field>)
    requires forall i :: 0 <= i < |fields| ==> FieldOk(fields[i])
    ensures MembersOk(MembersFor(fields))
    ensures MembersMeaning(start, MembersFor(fields)) == WithFields(start, fields)
    decreases |fields|
  {
    hide FieldOk, FieldValue;
    if fields != [] {
      var f, members := fields[0], MembersFor(fields);
      MemberForMeans(f);
      MembersForMean(start[f.name := FieldValue(f)], fields[1..]);
      FirstAndRest(MemberFor(f), MembersFor(fields[1..]));
      MeaningStep(start, members);
    }
  }

  /** The first field, then every other behind a comma. */
  lemma {:induction false} MembersForText(fields: seq<Field>)
    requires fields != [] && forall i :: 0 <= i < |fields| ==> FieldOk(fields[i])
    ensures MembersText(MembersFor(fields)) == FieldText(fields[0]) + FieldsText(fields[1..])
    decreases |fields|
  {
    hide FieldOk, FieldText, Member.Text;
    MemberForMeans(fields[0]);
    var rest := fields[1..];
    if rest == [] {
      assert MembersFor(fields) == [MemberFor(fields[0])];
      assert FieldText(fields[0]) + "" == FieldText(fields[0]);
    } else {
      MembersForText(rest);
      assert MembersFor(fields)[1..] == MembersFor(rest);
      assert "," + (FieldText(rest[0]) + FieldsText(rest[1..])) == "," + FieldText(rest[0]) + FieldsText(rest[1..]);
    }
  }

  /** Whatever is formatted parses back to exactly its fields. */
  lemma FormatRoundTrip(kind: string, fields: seq<Field>)
    requires Simple(kind) && Simple("type") && forall i :: 0 <= i < |fields| ==> FieldOk(fields[i])
    ensures ParseObject(FormatJson(kind, fields)) == Ok(WithFields(map["type" := Text(kind)], fields))
  {
    hide ParseObject, FieldsText, MembersText, EscapeJson;
    var all := [StringField("type", kind)] + fields;
    assert all[1..] == fields;
    var d := Document("", MembersFor(all), "", "");
    MembersForMean(map[], all);
    MembersForText(all);
    SimpleEscapes(kind);
    Layout(kind, FieldsText(fields));
    assert d.Text() == FormatJson(kind, fields);
    DerivableParses(d);
  }

  lemma {:induction false} SimpleEscapes(s: string)
    requires Simple(s)
    ensures EscapeJson(s) == s
  {
    if s != "" {
      SimpleEscapes(s[1..]);
    }
  }

  lemma Layout(kind: string, tail: string)
    ensures "" + ("{" + ((("\"" + "type" + "\":" + ("\"" + kind + "\"")) + tail) + ("}" + ""))) ==
            "{\"type\":\"" + kind + "\"" + tail + "}"
  {
    assert "\"" + "type" + "\":" == "\"type\":";
    assert "{" + "\"type\":" + "\"" == "{\"type\":\"";
  }

  // ------------------------------------------------------------ replies

  datatype Reply =
    | OkReply(message: string)
    | ErrorReply(reason: string)
    | RegisterSuccess(userId: nat)
    | RegisterFailed(reason: string)
    | LoginSuccess(userId: nat, username: string)
    | LoginFailed(reason: string)
    | CreateGroupSuccess(groupId: nat, name: string)
    | MessageAck(messageId: nat, stored: bool, delivered: bool)
    | DirectMessage(from: string, body: string)
    | GroupMessage(groupId: nat, from: string, body: string)
    | PlainHistoryItem(chatType: string, from: string, to: string, body: string)
    | HistoryItem(messageId: nat, chatType: string, from: string, to: string, body: string, createdAt: string)
    | PlainHistoryEnd
    | HistoryEnd(hasMore: bool, next: nat)
    | UnreadEnd(hasMore: bool, next: nat)
    | Pong

  function Kind(r: Reply): string {
    match r
    case OkReply(_) => "ok"
    case ErrorReply(_) => "error"
    case RegisterSuccess(_) => "register_success"
    case RegisterFailed(_) => "register_failed"
    case LoginSuccess(_, _) => "login_success"
    case LoginFailed(_) => "login_failed"
    case CreateGroupSuccess(_, _) => "create_group_success"
    case MessageAck(_, _, _) => "message_ack"
    case DirectMessage(_, _) => "dm"
    case GroupMessage(_, _, _) => "group_message"
    case PlainHistoryItem(_, _, _, _) => "history_item"
    case HistoryItem(_, _, _, _, _, _) => "history_item"
    case PlainHistoryEnd => "history_end"
    case HistoryEnd(_, _) => "history_end"
    case UnreadEnd(_, _) => "unread_end"
    case Pong => "pong"
  }

  function Fields(r: Reply): seq<Field> {
    match r
    case OkReply(message) => [StringField("message", message)]
    case ErrorReply(reason) => [StringField("reason", reason)]
    case RegisterSuccess(userId) => [NumberField("user_id", userId)]
    case RegisterFailed(reason) => [StringField("reason", reason)]
    case LoginSuccess(userId, username) => [NumberField("user_id", userId), StringField("username", username)]
    case LoginFailed(reason) => [StringField("reason", reason)]
    case CreateGroupSuccess(groupId, name) => [NumberField("group_id", groupId), StringField("name", name)]
    case MessageAck(messageId, stored, delivered) =>
      [NumberField("message_id", messageId), StringField("status", if stored then "stored" else "failed"),
       BoolField("stored", stored), BoolField("delivered", delivered)]
    case DirectMessage(from, body) => [StringField("from", from), StringField("body", body)]
    case GroupMessage(groupId, from, body) =>
      [NumberField("group_id", groupId), StringField("from", from), StringField("body", body)]
    case PlainHistoryItem(chatType, from, to, body) =>
      [StringField("chat_type", chatType), StringField("from", from), StringField("to", to), StringField("body", body)]
    case HistoryItem(messageId, chatType, from, to, body, createdAt) =>
      [NumberField("message_id", messageId), StringField("chat_type", chatType), StringField("from", from),
       StringField("to", to), StringField("body", body), StringField("created_at", createdAt)]
    case PlainHistoryEnd => []
    case HistoryEnd(hasMore, next) => [BoolField("has_more", hasMore), NumberField("next_before_id", next)]
    case UnreadEnd(hasMore, next) => [BoolField("has_more", hasMore), NumberField("next_last_seen_message_id", next)]
    case Pong => []
  }

  function Format(r: Reply): string {
    FormatJson(Kind(r), Fields(r))
  }

  /** The numbers a reply carries are 64-bit in the source. */
  predicate Fits(r: Reply) {
    forall i :: 0 <= i < |Fields(r)| && Fields(r)[i].NumberField? ==> Fields(r)[i].number < TWO_TO_THE_64
  }

  /** What a client should find in each reply. */
  function Intended(r: Reply): Object {
    match r
    case OkReply(message) => map["type" := Text("ok"), "message" := Text(message)]
    case ErrorReply(reason) => map["type" := Text("error"), "reason" := Text(reason)]
    case RegisterSuccess(userId) => map["type" := Text("register_success"), "user_id" := Number(userId)]
    case RegisterFailed(reason) => map["type" := Text("register_failed"), "reason" := Text(reason)]
    case LoginSuccess(userId, username) =>
      map["type" := Text("login_success"), "user_id" := Number(userId), "username" := Text(username)]
    case LoginFailed(reason) => map["type" := Text("login_failed"), "reason" := Text(reason)]
    case CreateGroupSuccess(groupId, name) =>
      map["type" := Text("create_group_success"), "group_id" := Number(groupId), "name" := Text(name)]
    case MessageAck(messageId, stored, delivered) =>
      map["type" := Text("message_ack"), "message_id" := Number(messageId),
          "status" := Text(if stored then "stored" else "failed"), "stored" := Bool(stored), "delivered" := Bool(delivered)]
    case DirectMessage(from, body) => map["type" := Text("dm"), "from" := Text(from), "body" := Text(body)]
    case GroupMessage(groupId, from, body) =>
      map["type" := Text("group_message"), "group_id" := Number(groupId), "from" := Text(from), "body" := Text(body)]
    case PlainHistoryItem(chatType, from, to, body) =>
      map["type" := Text("history_item"), "chat_type" := Text(chatType), "from" := Text(from), "to" := Text(to),
          "body" := Text(body)]
    case HistoryItem(messageId, chatType, from, to, body, createdAt) =>
      map["type" := Text("history_item"), "message_id" := Number(messageId), "chat_type" := Text(chatType),
          "from" := Text(from), "to" := Text(to), "body" := Text(body), "created_at" := Text(createdAt)]
    case PlainHistoryEnd => map["type" := Text("history_end")]
    case HistoryEnd(hasMore, next) =>
      map["type" := Text("history_end"), "has_more" := Bool(hasMore), "next_before_id" := Number(next)]
    case UnreadEnd(hasMore, next) =>
      map["type" := Text("unread_end"), "has_more" := Bool(hasMore), "next_last_seen_message_id" := Number(next)]
    case Pong => map["type" := Text("pong")]
  }

  lemma SimpleShortKinds()
    ensures Simple("ok") && Simple("error") && Simple("dm") && Simple("pong") && Simple("login_failed")
  {
  }

  lemma SimpleRegistrationKinds()
    ensures Simple("register_success") && Simple("register_failed") && Simple("login_success")
  {
  }

  lemma SimpleMessageKinds()
    ensures Simple("message_ack") && Simple("group_message") && Simple("create_group_success")
  {
  }

  lemma SimpleEndKinds()
    ensures Simple("history_item") && Simple("history_end") && Simple("unread_end")
  {
  }

  lemma SimpleUserNames()
    ensures Simple("type") && Simple("message") && Simple("reason") && Simple("user_id") && Simple("username")
  {
  }

  lemma SimpleGroupNames()
    ensures Simple("group_id") && Simple("name") && Simple("message_id") && Simple("status")
  {
  }

  lemma SimpleMessageNames()
    ensures Simple("stored") && Simple("delivered") && Simple("from") && Simple("body") && Simple("to")
  {
  }

  lemma SimpleHistoryNames()
    ensures Simple("chat_type") && Simple("created_at") && Simple("has_more")
  {
  }

  lemma SimpleCursorNames()
    ensures Simple("next_before_id") && Simple("next_last_seen_message_id")
  {
  }

  lemma NamesAreSimple(r: Reply)
    ensures Simple(Kind(r)) && Simple("type")
    ensures forall i :: 0 <= i < |Fields(r)| ==> Simple(Fields(r)[i].name)
  {
    hide Simple;
    SimpleShortKinds();
    SimpleRegistrationKinds();
    SimpleMessageKinds();
    SimpleEndKinds();
    SimpleUserNames();
    SimpleGroupNames();
    SimpleMessageNames();
    SimpleHistoryNames();
    SimpleCursorNames();
  }

  lemma OneField(start: Object, f: Field)
    ensures WithFields(start, [f]) == start[f.name := FieldValue(f)]
  {
  }

  lemma FieldThen(start: Object, f: Field, rest: seq<Field>)
    ensures WithFields(start, [f] + rest) == WithFields(start[f.name := FieldValue(f)], rest)
  {
    assert ([f] + rest)[1..] == rest;
  }

  lemma TwoFields(start: Object, f: Field, g: Field)
    ensures WithFields(start, [f, g]) == start[f.name := FieldValue(f)][g.name := FieldValue(g)]
  {
    hide WithFields;
    FieldThen(start, f, [g]);
    OneField(start[f.name := FieldValue(f)], g);
    assert [f, g] == [f] + [g];
  }

  lemma ThreeFields(start: Object, f: Field, g: Field, h: Field)
    ensures WithFields(start, [f, g, h]) == start[f.name := FieldValue(f)][g.name := FieldValue(g)][h.name := FieldValue(h)]
  {
    hide WithFields;
    FieldThen(start, f, [g, h]);
    TwoFields(start[f.name := FieldValue(f)], g, h);
    assert [f, g, h] == [f] + [g, h];
  }

  lemma FourFields(start: Object, e: Field, f: Field, g: Field, h: Field)
    ensures WithFields(start, [e, f, g, h]) ==
            start[e.name := FieldValue(e)][f.name := FieldValue(f)][g.name := FieldValue(g)][h.name := FieldValue(h)]
  {
    hide WithFields;
    FieldThen(start, e, [f, g, h]);
    ThreeFields(start[e.name := FieldValue(e)], f, g, h);
    assert [e, f, g, h] == [e] + [f, g, h];
  }

  lemma SixFields(start: Object, c: Field, d: Field, e: Field, f: Field, g: Field, h: Field)
    ensures WithFields(start, [c, d, e, f, g, h]) ==
            start[c.name := FieldValue(c)][d.name := FieldValue(d)][e.name := FieldValue(e)]
            [f.name := FieldValue(f)][g.name := FieldValue(g)][h.name := FieldValue(h)]
  {
    hide WithFields;
    var one, two := start[c.name := FieldValue(c)], start[c.name := FieldValue(c)][d.name := FieldValue(d)];
    FieldThen(start, c, [d, e, f, g, h]);
    FieldThen(one, d, [e, f, g, h]);
    FourFields(two, e, f, g, h);
    assert [c, d, e, f, g, h] == [c] + [d, e, f, g, h] && [d, e, f, g, h] == [d] + [e, f, g, h];
  }

  lemma NoFields(start: Object)
    ensures WithFields(start, []) == start
  {
  }

  /** The fields put in one after the other. */
  lemma FieldsUnfold(start: Object, fields: seq<Field>)
    requires |fields| <= 4 || |fields| == 6
    ensures WithFields(start, fields) == Unfolded(start, fields)
  {
    hide WithFields;
    match |fields| {
      case 1 => OneField(start, fields[0]); assert fields == [fields[0]];
      case 2 => TwoFields(start, fields[0], fields[1]); assert fields == [fields[0], fields[1]];
      case 3 =>
        ThreeFields(start, fields[0], fields[1], fields[2]);
        assert fields == [fields[0], fields[1], fields[2]];
      case 4 =>
        FourFields(start, fields[0], fields[1], fields[2], fields[3]);
        assert fields == [fields[0], fields[1], fields[2], fields[3]];
      case 6 =>
        SixFields(start, fields[0], fields[1], fields[2], fields[3], fields[4], fields[5]);
        assert fields == [fields[0], fields[1], fields[2], fields[3], fields[4], fields[5]];
      case _ => NoFields(start); assert fields == [];
    }
  }

  /** `WithFields` without recursion, for the field counts that occur. */
  function Unfolded(start: Object, fields: seq<Field>): Object {
    var one := if |fields| < 1 then start else start[fields[0].name := FieldValue(fields[0])];
    var two := if |fields| < 2 then one else one[fields[1].name := FieldValue(fields[1])];
    var three := if |fields| < 3 then two else two[fields[2].name := FieldValue(fields[2])];
    var four := if |fields| < 4 then three else three[fields[3].name := FieldValue(fields[3])];
    if |fields| < 6 then four
    else four[fields[4].name := FieldValue(fields[4])][fields[5].name := FieldValue(fields[5])]
  }

  lemma IntendedFields(r: Reply)
    ensures WithFields(map["type" := Text(Kind(r))], Fields(r)) == Intended(r)
  {
    hide WithFields;
    FieldsUnfold(map["type" := Text(Kind(r))], Fields(r));
  }

  /** For all values of its fields, every reply the server formats parses back to exactly the intended
      fields. */
  lemma ReplyRoundTrip(r: Reply)
    requires Fits(r)
    ensures ParseObject(Format(r)) == Ok(Intended(r))
  {
    hide Simple, ParseObject, FormatJson, Intended;
    NamesAreSimple(r);
    IntendedFields(r);
    FormatRoundTrip(Kind(r), Fields(r));
  }
}
