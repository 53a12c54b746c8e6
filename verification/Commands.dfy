/** The client commands: how one is read from a payload, which payloads describe which command, and
    that a command a client prints is the command the server reads. */
module Commands {
  import opened Wrappers
  import opened Json
  import opened JsonGrammar
  import opened Protocol

  datatype Command =
    | Register(username: string, password: string)
    | Login(username: string, password: string)
    | Logout
    | Ping
    | Direct(to: string, body: string)
    | CreateGroup(name: string)
    | JoinGroup(groupId: nat)
    | LeaveGroup(groupId: nat)
    | GroupChat(groupId: nat, body: string)
    | History(peer: string, limit: nat, beforeId: nat)
    | GroupHistory(groupId: nat, limit: nat, beforeId: nat)
    | Unread(lastSeen: nat, limit: nat)

  const DEFAULT_LIMIT: nat := 20
  const MAX_LIMIT: nat := 100

  // ------------------------------------------------------------ reading

  function TrimTrailingCr(line: string): string {
    if line != "" && line[|line| - 1] == '\r' then line[..|line| - 1] else line
  }

  function GetString(fields: Object, name: string): Result<string, string> {
    if name in fields && fields[name].Text? then Ok(fields[name].text) else Err("missing string field: " + name)
  }

  function GetNumber(fields: Object, name: string): Result<nat, string> {
    if name in fields && fields[name].Number? then Ok(fields[name].number) else Err("missing number field: " + name)
  }

  function GetNumberOr(fields: Object, name: string, default: nat): Result<nat, string> {
    if name !in fields then Ok(default)
    else if fields[name].Number? then Ok(fields[name].number)
    else Err("invalid number field: " + name)
  }

  function GetLimit(fields: Object): Result<nat, string> {
    var limit :- GetNumberOr(fields, "limit", DEFAULT_LIMIT);
    Ok(if limit < MAX_LIMIT then limit else MAX_LIMIT)
  }

  function ReadCredentials(fields: Object): Result<(string, string), string> {
    var username :- GetString(fields, "username");
    var password :- GetString(fields, "password");
    if username == "" || password == "" then Err("username and password are required") else Ok((username, password))
  }

  function ReadDirect(fields: Object): Result<Command, string> {
    var to :- GetString(fields, "to");
    var body :- GetString(fields, "body");
    if to == "" || body == "" then Err("to and body are required") else Ok(Direct(to, body))
  }

  function ReadGroupChat(fields: Object): Result<Command, string> {
    var groupId :- GetNumber(fields, "group_id");
    var body :- GetString(fields, "body");
    if body == "" then Err("body is required") else Ok(GroupChat(groupId, body))
  }

  function ReadHistory(fields: Object): Result<Command, string> {
    var peer :- GetString(fields, "peer");
    var limit :- GetLimit(fields);
    var beforeId :- GetNumberOr(fields, "before_id", 0);
    if peer == "" then Err("peer is required") else Ok(History(peer, limit, beforeId))
  }

  function ReadGroupHistory(fields: Object): Result<Command, string> {
    var groupId :- GetNumber(fields, "group_id");
    var limit :- GetLimit(fields);
    var beforeId :- GetNumberOr(fields, "before_id", 0);
    Ok(GroupHistory(groupId, limit, beforeId))
  }

  function ReadUnread(fields: Object): Result<Command, string> {
    var lastSeen :- GetNumberOr(fields, "last_seen_message_id", 0);
    var limit :- GetLimit(fields);
    Ok(Unread(lastSeen, limit))
  }

  function ReadCreateGroup(fields: Object): Result<Command, string> {
    var name :- GetString(fields, "name");
    if name == "" then Err("group name is required") else Ok(CreateGroup(name))
  }

  function ReadCommand(fields: Object): Result<Command, string> {
    var kind :- GetString(fields, "type");
    match kind
    case "register" =>
      var c :- ReadCredentials(fields);
      Ok(Register(c.0, c.1))
    case "login" =>
      var c :- ReadCredentials(fields);
      Ok(Login(c.0, c.1))
    case "logout" => Ok(Logout)
    case "ping" => Ok(Ping)
    case "dm" => ReadDirect(fields)
    case "create_group" => ReadCreateGroup(fields)
    case "join_group" =>
      var groupId :- GetNumber(fields, "group_id");
      Ok(JoinGroup(groupId))
    case "leave_group" =>
      var groupId :- GetNumber(fields, "group_id");
      Ok(LeaveGroup(groupId))
    case "group_message" => ReadGroupChat(fields)
    case "history" => ReadHistory(fields)
    case "group_history" => ReadGroupHistory(fields)
    case "unread" => ReadUnread(fields)
    case _ => Err("unknown command")
  }

  function ParseClientCommand(line: string): Result<Command, string> {
    var fields :- ParseObject(TrimTrailingCr(line));
    ReadCommand(fields)
  }

  /** The same, as the source fills in a command: each read may throw, then empty texts are refused. */
  method RunParseClientCommand(line: string) returns (r: Result<Command, string>)
    ensures r == ParseClientCommand(line)
  {
    var normalized := line;
    if normalized != "" && normalized[|normalized| - 1] == '\r' {
      normalized := normalized[..|normalized| - 1];
    }
    var fields :- RunParseObject(normalized);
    r := RunReadCommand(fields);
  }

  method RunReadCommand(fields: Object) returns (r: Result<Command, string>)
    ensures r == ReadCommand(fields)
  {
    hide ReadCreateGroup, ReadGroupChat, ReadHistory, ReadGroupHistory, ReadUnread;
    var kind :- GetString(fields, "type");
    if kind == "register" || kind == "login" {
      r := RunReadCredentials(fields, kind);
      return;
    }
    if kind == "logout" {
      return Ok(Logout);
    }
    if kind == "ping" {
      return Ok(Ping);
    }
    if kind == "dm" {
      var to :- GetString(fields, "to");
      var body :- GetString(fields, "body");
      return if to == "" || body == "" then Err("to and body are required") else Ok(Direct(to, body));
    }
    r := RunReadGroupCommand(fields, kind);
  }

  method RunReadGroupCommand(fields: Object, kind: string) returns (r: Result<Command, string>)
    requires GetString(fields, "type") == Ok(kind)
    requires kind !in ["register", "login", "logout", "ping", "dm"]
    ensures r == ReadCommand(fields)
  {
    hide ReadCredentials, ReadDirect, ReadHistory, ReadGroupHistory, ReadUnread;
    if kind == "create_group" {
      var name :- GetString(fields, "name");
      return if name == "" then Err("group name is required") else Ok(CreateGroup(name));
    }
    if kind == "join_group" {
      var groupId :- GetNumber(fields, "group_id");
      return Ok(JoinGroup(groupId));
    }
    if kind == "leave_group" {
      var groupId :- GetNumber(fields, "group_id");
      return Ok(LeaveGroup(groupId));
    }
    if kind == "group_message" {
      var groupId :- GetNumber(fields, "group_id");
      var body :- GetString(fields, "body");
      return if body == "" then Err("body is required") else Ok(GroupChat(groupId, body));
    }
    r := RunReadQuery(fields, kind);
  }

  method RunReadCredentials(fields: Object, kind: string) returns (r: Result<Command, string>)
    requires kind in ["register", "login"] && GetString(fields, "type") == Ok(kind)
    ensures r == ReadCommand(fields)
  {
    var username :- GetString(fields, "username");
    var password :- GetString(fields, "password");
    if username == "" || password == "" {
      return Err("username and password are required");
    }
    return Ok(if kind == "register" then Register(username, password) else Login(username, password));
  }

  /** The commands that ask for messages, and what is none of the others. */
  method RunReadQuery(fields: Object, kind: string) returns (r: Result<Command, string>)
    requires GetString(fields, "type") == Ok(kind)
    requires kind !in ["register", "login", "logout", "ping", "dm"]
    requires kind !in ["create_group", "join_group", "leave_group", "group_message"]
    ensures r == ReadCommand(fields)
  {
    hide ReadCredentials, ReadDirect, ReadCreateGroup, ReadGroupChat;
    if kind == "history" {
      var peer :- GetString(fields, "peer");
      var asked :- GetNumberOr(fields, "limit", DEFAULT_LIMIT);
      var limit := if MAX_LIMIT < asked then MAX_LIMIT else asked;
      var beforeId :- GetNumberOr(fields, "before_id", 0);
      return if peer == "" then Err("peer is required") else Ok(History(peer, limit, beforeId));
    }
    if kind == "group_history" {
      var groupId :- GetNumber(fields, "group_id");
      var asked :- GetNumberOr(fields, "limit", DEFAULT_LIMIT);
      var limit := if MAX_LIMIT < asked then MAX_LIMIT else asked;
      var beforeId :- GetNumberOr(fields, "before_id", 0);
      return Ok(GroupHistory(groupId, limit, beforeId));
    }
    if kind == "unread" {
      var lastSeen :- GetNumberOr(fields, "last_seen_message_id", 0);
      var asked :- GetNumberOr(fields, "limit", DEFAULT_LIMIT);
      return Ok(Unread(lastSeen, if MAX_LIMIT < asked then MAX_LIMIT else asked));
    }
    return Err("unknown command");
  }

  // ------------------------------------------------------------ what a payload describes

  function Kind(c: Command): string {
    match c
    case Register(_, _) => "register"
    case Login(_, _) => "login"
    case Logout => "logout"
    case Ping => "ping"
    case Direct(_, _) => "dm"
    case CreateGroup(_) => "create_group"
    case JoinGroup(_) => "join_group"
    case LeaveGroup(_) => "leave_group"
    case GroupChat(_, _) => "group_message"
    case History(_, _, _) => "history"
    case GroupHistory(_, _, _) => "group_history"
    case Unread(_, _) => "unread"
  }

  predicate Says(fields: Object, name: string, value: Value) {
    name in fields && fields[name] == value
  }

  predicate SaysText(fields: Object, name: string, text: string) {
    text != "" && Says(fields, name, Text(text))
  }

  predicate SaysNumberOr(fields: Object, name: string, default: nat, number: nat) {
    if name in fields then fields[name] == Number(number) else number == default
  }

  /** The limit asked for, capped; 20 when none is asked for. */
  ghost predicate SaysLimit(fields: Object, limit: nat) {
    limit <= MAX_LIMIT && exists asked: nat ::
      SaysNumberOr(fields, "limit", DEFAULT_LIMIT, asked) && (limit == asked || limit == MAX_LIMIT <= asked)
  }

  /** The protocol, command by command: required texts are not empty, cursors and limits may be left
      out, and members the command does not use are ignored. */
  ghost predicate Describes(fields: Object, c: Command) {
    Says(fields, "type", Text(Kind(c))) && Carries(fields, c)
  }

  ghost predicate Carries(fields: Object, c: Command) {
    match c
    case Register(username, password) => SaysText(fields, "username", username) && SaysText(fields, "password", password)
    case Login(username, password) => SaysText(fields, "username", username) && SaysText(fields, "password", password)
    case Logout => true
    case Ping => true
    case Direct(to, body) => SaysText(fields, "to", to) && SaysText(fields, "body", body)
    case CreateGroup(name) => SaysText(fields, "name", name)
    case JoinGroup(groupId) => Says(fields, "group_id", Number(groupId))
    case LeaveGroup(groupId) => Says(fields, "group_id", Number(groupId))
    case GroupChat(groupId, body) => Says(fields, "group_id", Number(groupId)) && SaysText(fields, "body", body)
    case History(peer, limit, beforeId) =>
      SaysText(fields, "peer", peer) && SaysLimit(fields, limit) && SaysNumberOr(fields, "before_id", 0, beforeId)
    case GroupHistory(groupId, limit, beforeId) =>
      && Says(fields, "group_id", Number(groupId))
      && SaysLimit(fields, limit) && SaysNumberOr(fields, "before_id", 0, beforeId)
    case Unread(lastSeen, limit) =>
      SaysNumberOr(fields, "last_seen_message_id", 0, lastSeen) && SaysLimit(fields, limit)
  }

  lemma LimitMeans(fields: Object, limit: nat)
    ensures GetLimit(fields) == Ok(limit) <==> SaysLimit(fields, limit)
  {
    var asked := GetNumberOr(fields, "limit", DEFAULT_LIMIT);
    if asked.Ok? {
      assert SaysNumberOr(fields, "limit", DEFAULT_LIMIT, asked.value);
    }
  }

  lemma KindIsRead(fields: Object, c: Command)
    requires ReadCommand(fields) == Ok(c)
    ensures Says(fields, "type", Text(Kind(c)))
  {
    hide GetNumber, GetNumberOr, GetLimit, MAX_LIMIT, DEFAULT_LIMIT;
  }

  lemma HistoryIsRead(fields: Object, c: Command)
    requires c.History? || c.GroupHistory? || c.Unread?
    requires Says(fields, "type", Text(Kind(c)))
    ensures ReadCommand(fields) == Ok(c) <==> Carries(fields, c)
  {
    hide GetLimit, SaysLimit;
    var limit := GetLimit(fields);
    if limit.Ok? {
      LimitMeans(fields, limit.value);
    }
    LimitMeans(fields, c.limit);
  }

  lemma ContentIsRead(fields: Object, c: Command)
    requires Says(fields, "type", Text(Kind(c)))
    ensures ReadCommand(fields) == Ok(c) <==> Carries(fields, c)
  {
    hide GetLimit, SaysLimit;
    if c.History? || c.GroupHistory? || c.Unread? {
      HistoryIsRead(fields, c);
    }
  }

  lemma ReadMeansDescribed(fields: Object, c: Command)
    ensures ReadCommand(fields) == Ok(c) <==> Describes(fields, c)
  {
    hide ReadCommand, Carries, Kind;
    if ReadCommand(fields) == Ok(c) {
      KindIsRead(fields, c);
    }
    if Says(fields, "type", Text(Kind(c))) {
      ContentIsRead(fields, c);
    }
  }

  // ------------------------------------------------------------ the trailing carriage return

  lemma AppendBlank(line: string, blank: char, fields: Object)
    requires IsSpace(blank) && Derivable(line, fields)
    ensures Derivable(line + [blank], fields)
  {
    var d: Document :| d.WellFormed() && d.Text() == line && d.Meaning() == fields;
    var longer := d.(after := d.after + [blank]);
    EndsWith(d, blank);
    assert longer.Meaning() == fields;
  }

  lemma EndsWith(d: Document, c: char)
    ensures d.(after := d.after + [c]).Text() == d.Text() + [c]
  {
    hide BeforeBrace, Document.Text;
    TextEnds(d);
    TextEnds(d.(after := d.after + [c]));
    SameFront(d, d.after + [c]);
    assert BeforeBrace(d) + ("}" + (d.after + [c])) == (BeforeBrace(d) + ("}" + d.after)) + [c];
  }

  lemma LastOfTail(front: string, after: string, line: string, blank: char)
    requires front + ("}" + after) == line + [blank] && blank != '}'
    ensures after != "" && front + ("}" + after[..|after| - 1]) == line
  {
    var text := front + ("}" + after);
    assert text[|text| - 1] == (if after == "" then '}' else after[|after| - 1]);
    assert front + ("}" + after[..|after| - 1]) == text[..|text| - 1];
    assert (line + [blank])[..|line|] == line;
  }

  function BeforeBrace(d: Document): string {
    d.before + ("{" + if d.members == [] then d.inside else MembersText(d.members))
  }

  lemma TextEnds(d: Document)
    ensures d.Text() == BeforeBrace(d) + ("}" + d.after)
  {
    hide MembersText;
  }

  lemma DropBlank(line: string, blank: char, fields: Object)
    requires IsSpace(blank) && Derivable(line + [blank], fields)
    ensures Derivable(line, fields)
  {
    hide MembersText, MembersMeaning, BeforeBrace, Document.Text;
    var d: Document :| d.WellFormed() && d.Text() == line + [blank] && d.Meaning() == fields;
    TextEnds(d);
    LastOfTail(BeforeBrace(d), d.after, line, blank);
    var shorter := d.(after := d.after[..|d.after| - 1]);
    TextEnds(shorter);
    SameFront(d, shorter.after);
    assert shorter.WellFormed() && shorter.Meaning() == fields;
  }

  lemma SameFront(d: Document, after: string)
    ensures BeforeBrace(d.(after := after)) == BeforeBrace(d)
  {
  }

  /** Trimming one carriage return never changes what a line describes: the grammar allows it anyway. */
  lemma TrimIsRedundant(line: string, fields: Object)
    ensures ParseObject(TrimTrailingCr(line)) == Ok(fields) <==> Derivable(line, fields)
  {
    var trimmed := TrimTrailingCr(line);
    ParserMeetsGrammar(trimmed, fields);
    if trimmed != line {
      assert line == trimmed + ['\r'];
      if Derivable(trimmed, fields) { AppendBlank(trimmed, '\r', fields); }
      if Derivable(line, fields) { DropBlank(trimmed, '\r', fields); }
    }
  }

  ghost predicate Denotes(line: string, c: Command) {
    exists fields :: Derivable(line, fields) && Describes(fields, c)
  }

  /** The server reads command `c` from a line exactly when the grammar derives from the line an object
      that describes `c`. */
  lemma CommandMeetsGrammar(line: string, c: Command)
    ensures ParseClientCommand(line) == Ok(c) <==> Denotes(line, c)
  {
    hide ReadCommand, Describes, Derivable, ParseObject;
    if ParseClientCommand(line) == Ok(c) {
      var fields := ParseObject(TrimTrailingCr(line)).value;
      TrimIsRedundant(line, fields);
      ReadMeansDescribed(fields, c);
    }
    if Denotes(line, c) {
      var fields :| Derivable(line, fields) && Describes(fields, c);
      TrimIsRedundant(line, fields);
      ReadMeansDescribed(fields, c);
    }
  }

  // ------------------------------------------------------------ printing a command

  function CommandFields(c: Command): seq<Field> {
    match c
    case Register(username, password) => [StringField("username", username), StringField("password", password)]
    case Login(username, password) => [StringField("username", username), StringField("password", password)]
    case Logout => []
    case Ping => []
    case Direct(to, body) => [StringField("to", to), StringField("body", body)]
    case CreateGroup(name) => [StringField("name", name)]
    case JoinGroup(groupId) => [NumberField("group_id", groupId)]
    case LeaveGroup(groupId) => [NumberField("group_id", groupId)]
    case GroupChat(groupId, body) => [NumberField("group_id", groupId), StringField("body", body)]
    case History(peer, limit, beforeId) =>
      [StringField("peer", peer), NumberField("limit", limit), NumberField("before_id", beforeId)]
    case GroupHistory(groupId, limit, beforeId) =>
      [NumberField("group_id", groupId), NumberField("limit", limit), NumberField("before_id", beforeId)]
    case Unread(lastSeen, limit) => [NumberField("last_seen_message_id", lastSeen), NumberField("limit", limit)]
  }

  /** The line the documentation of the protocol gives for each command. */
  function CommandLine(c: Command): string {
    FormatJson(Kind(c), CommandFields(c))
  }

  /** The commands the server can be made to run: texts not empty, numbers of 64 bits, limits capped. */
  predicate Sensible(c: Command) {
    match c
    case Register(username, password) => username != "" && password != ""
    case Login(username, password) => username != "" && password != ""
    case Logout => true
    case Ping => true
    case Direct(to, body) => to != "" && body != ""
    case CreateGroup(name) => name != ""
    case JoinGroup(groupId) => groupId < TWO_TO_THE_64
    case LeaveGroup(groupId) => groupId < TWO_TO_THE_64
    case GroupChat(groupId, body) => groupId < TWO_TO_THE_64 && body != ""
    case History(peer, limit, beforeId) => peer != "" && limit <= MAX_LIMIT && beforeId < TWO_TO_THE_64
    case GroupHistory(groupId, limit, beforeId) =>
      groupId < TWO_TO_THE_64 && limit <= MAX_LIMIT && beforeId < TWO_TO_THE_64
    case Unread(lastSeen, limit) => lastSeen < TWO_TO_THE_64 && limit <= MAX_LIMIT
  }

  lemma SimpleUserKinds()
    ensures Simple("type") && Simple("register") && Simple("login") && Simple("logout") && Simple("ping") && Simple("dm")
  {
  }

  lemma SimpleGroupKinds()
    ensures Simple("create_group") && Simple("join_group") && Simple("leave_group")
  {
  }

  lemma SimpleHistoryKinds()
    ensures Simple("history") && Simple("group_history") && Simple("unread")
  {
  }

  lemma SimpleKinds(c: Command)
    ensures Simple(Kind(c)) && Simple("type")
  {
    hide Simple;
    SimpleUserKinds();
    SimpleGroupKinds();
    SimpleMessageKinds();
    SimpleHistoryKinds();
  }

  lemma SimpleTexts()
    ensures Simple("username") && Simple("password") && Simple("to") && Simple("body") && Simple("name") && Simple("peer")
  {
  }

  lemma SimpleNumbers()
    ensures Simple("group_id") && Simple("limit") && Simple("before_id") && Simple("last_seen_message_id")
  {
  }

  lemma FieldsDescribe(c: Command)
    requires Sensible(c)
    ensures Describes(WithFields(map["type" := Text(Kind(c))], CommandFields(c)), c)
  {
    hide WithFields, Kind;
    var start: Object := map["type" := Text(Kind(c))];
    var fields := WithFields(start, CommandFields(c));
    FieldsUnfold(start, CommandFields(c));
    match c
    case History(_, limit, _) => assert SaysNumberOr(fields, "limit", DEFAULT_LIMIT, limit);
    case GroupHistory(_, limit, _) => assert SaysNumberOr(fields, "limit", DEFAULT_LIMIT, limit);
    case Unread(_, limit) => assert SaysNumberOr(fields, "limit", DEFAULT_LIMIT, limit);
    case _ =>
  }

  /** Every number a line can carry has 64 bits. */
  predicate NumbersFit(fields: Object) {
    forall name :: name in fields && fields[name].Number? ==> fields[name].number < TWO_TO_THE_64
  }

  lemma {:induction false} MembersFit(fields: Object, members: seq<Member>)
    requires MembersOk(members) && NumbersFit(fields)
    ensures NumbersFit(MembersMeaning(fields, members))
    decreases |members|
  {
    if members != [] {
      assert members[0].WellFormed();
      MembersFit(fields[PiecesMeaning(members[0].key) := members[0].value.Meaning()], members[1..]);
    }
  }

  lemma DescribedIsSensible(fields: Object, c: Command)
    requires NumbersFit(fields) && Describes(fields, c)
    ensures Sensible(c)
  {
  }

  /** A printed command is read back as itself; and what is read is always a sensible command, so
      these are all the commands the chat service ever sees. */
  lemma CommandRoundTrip(c: Command)
    ensures Sensible(c) ==> ParseClientCommand(CommandLine(c)) == Ok(c)
    ensures Sensible(c) <==> exists line :: ParseClientCommand(line) == Ok(c)
  {
    hide ParseClientCommand, Sensible, Simple, Describes;
    if Sensible(c) {
      PrintedIsRead(c);
    }
    if exists line :: ParseClientCommand(line) == Ok(c) {
      var line :| ParseClientCommand(line) == Ok(c);
      ReadIsSensible(line, c);
    }
  }

  lemma PrintedIsRead(c: Command)
    requires Sensible(c)
    ensures ParseClientCommand(CommandLine(c)) == Ok(c)
  {
    hide ParseClientCommand, Simple, Describes, Derivable, ParseObject, FormatJson, WithFields;
    SimpleKinds(c);
    SimpleTexts();
    SimpleNumbers();
    FormatRoundTrip(Kind(c), CommandFields(c));
    var fields := WithFields(map["type" := Text(Kind(c))], CommandFields(c));
    ParserMeetsGrammar(CommandLine(c), fields);
    FieldsDescribe(c);
    assert Denotes(CommandLine(c), c);
    CommandMeetsGrammar(CommandLine(c), c);
  }

  lemma ReadIsSensible(line: string, c: Command)
    requires ParseClientCommand(line) == Ok(c)
    ensures Sensible(c)
  {
    hide ParseClientCommand, Describes, Sensible;
    CommandMeetsGrammar(line, c);
    var fields :| Derivable(line, fields) && Describes(fields, c);
    var d: Document :| d.WellFormed() && d.Text() == line && d.Meaning() == fields;
    MembersFit(map[], d.members);
    DescribedIsSensible(fields, c);
  }
}
