/** How long replies get: escaping can double a text, so a packet within the limit can ask for a reply
    beyond it. */
module ReplySizes {
  import opened Wrappers
  import opened Json
  import opened JsonGrammar
  import opened Protocol
  import opened PacketCodec
  import Commands

  /** The characters that take two in an escaped text. */
  function Escapes(s: string): nat {
    if s == "" then 0 else (if EscapeChar(s[0]) == [s[0]] then 0 else 1) + Escapes(s[1..])
  }

  lemma {:induction false} EscapedLength(s: string)
    ensures |EscapeJson(s)| == |s| + Escapes(s)
  {
    if s != "" {
      EscapedLength(s[1..]);
    }
  }

  function TextSize(s: string): nat {
    |s| + Escapes(s)
  }

  function ValueSize(f: Field): nat {
    match f
    case StringField(_, text) => 2 + TextSize(text)
    case NumberField(_, number) => |Decimal(number)|
    case BoolField(_, flag) => if flag then 4 else 5
  }

  /** Each field with its comma, quotes and colon. */
  function FieldsSize(fields: seq<Field>): nat {
    if fields == [] then 0 else 4 + |fields[0].name| + ValueSize(fields[0]) + FieldsSize(fields[1..])
  }

  lemma FieldTextLength(f: Field)
    ensures |FieldText(f)| == 3 + |f.name| + ValueSize(f)
  {
    match f
    case StringField(_, text) => EscapedLength(text);
    case _ =>
  }

  lemma {:induction false} FieldsTextLength(fields: seq<Field>)
    ensures |FieldsText(fields)| == FieldsSize(fields)
  {
    hide FieldText, ValueSize;
    if fields != [] {
      FieldTextLength(fields[0]);
      FieldsTextLength(fields[1..]);
    }
  }

  /** Nine characters before the type, one behind it, and the closing brace. */
  function ObjectSize(kind: string, fields: seq<Field>): nat {
    11 + |kind| + FieldsSize(fields)
  }

  lemma FormatLength(kind: string, fields: seq<Field>)
    ensures |FormatJson(kind, fields)| == ObjectSize(kind, fields)
  {
    hide FieldsText, FieldsSize;
    FieldsTextLength(fields);
    assert |"{\"type\":\""| == 9;
  }

  /** A reply can be framed exactly when its size, escapes included, is within the payload limit. */
  lemma ReplyIsEncodable(r: Reply)
    ensures Encodable(Format(r)) <==> ObjectSize(Kind(r), Fields(r)) <= MAX_PAYLOAD
  {
    hide FormatJson, FieldsSize, Kind, Fields;
    FormatLength(Kind(r), Fields(r));
  }

  /** For a direct message: when name and text, each with its escapes, leave 33 characters. */
  lemma DirectMessageIsEncodable(from: string, body: string)
    ensures Encodable(Format(DirectMessage(from, body))) <==> TextSize(from) + TextSize(body) <= MAX_PAYLOAD - 33
  {
    hide TextSize, Format, Encodable;
    var f, g := StringField("from", from), StringField("body", body);
    ReplyIsEncodable(DirectMessage(from, body));
    assert [f, g][1..] == [g] && [g][1..] == [];
    assert |"from"| == 4 && |"body"| == 4 && |"dm"| == 2;
    assert FieldsSize([g]) == 4 + 4 + 2 + TextSize(body);
  }

  // ------------------------------------------------------------ an accepted packet without a sendable reply

  function NewLines(n: nat): string {
    seq(n, i => '\n')
  }

  function RawNewLines(n: nat): seq<Piece> {
    seq(n, i => Plain('\n'))
  }

  /** A raw newline is a plain character of a string literal. */
  lemma {:induction false} RawNewLinesMean(n: nat)
    ensures PiecesOk(RawNewLines(n)) && PiecesText(RawNewLines(n)) == NewLines(n)
    ensures PiecesMeaning(RawNewLines(n)) == NewLines(n)
  {
    if n > 0 {
      RawNewLinesMean(n - 1);
      assert RawNewLines(n)[1..] == RawNewLines(n - 1) && NewLines(n)[1..] == NewLines(n - 1);
      assert NewLines(n) == ['\n'] + NewLines(n - 1);
    }
  }

  lemma {:induction false} NewLinesSize(n: nat)
    ensures TextSize(NewLines(n)) == 2 * n
  {
    if n > 0 {
      NewLinesSize(n - 1);
      assert NewLines(n)[1..] == NewLines(n - 1);
    }
  }

  function BodyMember(n: nat): Member {
    Member("", PlainPieces("body"), "", "", StringToken(RawNewLines(n)), "")
  }

  function MessageDocument(to: string, n: nat): Document {
    Document("", [MemberFor(StringField("type", "dm")), MemberFor(StringField("to", to)), BodyMember(n)], "", "")
  }

  lemma BodyMemberMeans(n: nat)
    ensures BodyMember(n).WellFormed() && |BodyMember(n).Text()| == 9 + n
    ensures PiecesMeaning(BodyMember(n).key) == "body" && BodyMember(n).value.Meaning() == Text(NewLines(n))
  {
    RawNewLinesMean(n);
    PlainMeans("body");
  }

  lemma MessageDocumentMeans(to: string, n: nat)
    ensures MessageDocument(to, n).WellFormed()
    ensures MessageDocument(to, n).Meaning() == map["type" := Text("dm"), "to" := Text(to), "body" := Text(NewLines(n))]
    ensures |MessageDocument(to, n).Text()| == 31 + TextSize(to) + n
  {
    hide Member.Text, PiecesMeaning, FieldText, ValueSize, BodyMember, Simple;
    var d := MessageDocument(to, n);
    var kind, receiver := StringField("type", "dm"), StringField("to", to);
    NamesHere();
    MemberForMeans(kind);
    MemberForMeans(receiver);
    BodyMemberMeans(n);
    FieldTextLength(kind);
    FieldTextLength(receiver);
    var a, b, c := MemberFor(kind), MemberFor(receiver), BodyMember(n);
    ThreeMembers(map[], a, b, c);
    ValueSizes(to);
    assert d.members == [a, b, c];
    assert d.Meaning() == MembersMeaning(map[], [a, b, c]);
    DocumentLength(d);
  }

  lemma DocumentLength(d: Document)
    requires d.members != []
    ensures |d.Text()| == |d.before| + |MembersText(d.members)| + |d.after| + 2
  {
    hide MembersText;
  }

  lemma NamesHere()
    ensures Simple("type") && Simple("to") && Simple("body") && |"type"| == 4 && |"to"| == 2
  {
  }

  lemma ValueSizes(to: string)
    ensures ValueSize(StringField("type", "dm")) == 4 && ValueSize(StringField("to", to)) == 2 + TextSize(to)
  {
    assert Escapes("dm"[1..][1..]) == 0 && Escapes("dm"[1..]) == 0 && Escapes("dm") == 0;
  }

  lemma ThreeMembers(start: Object, a: Member, b: Member, c: Member)
    requires a.WellFormed() && b.WellFormed() && c.WellFormed()
    ensures MembersOk([a, b, c])
    ensures |MembersText([a, b, c])| == |a.Text()| + |b.Text()| + |c.Text()| + 2
    ensures MembersMeaning(start, [a, b, c]) ==
            start[PiecesMeaning(a.key) := a.value.Meaning()][PiecesMeaning(b.key) := b.value.Meaning()]
            [PiecesMeaning(c.key) := c.value.Meaning()]
  {
    hide Member.Text, PiecesMeaning, MembersText, MembersMeaning;
    var one := start[PiecesMeaning(a.key) := a.value.Meaning()];
    var two := one[PiecesMeaning(b.key) := b.value.Meaning()];
    assert [a, b, c] == [a] + [b, c] && [b, c] == [b] + [c] && [c] == [c] + [];
    LastMember(two, c);
    MemberThen(one, b, [c]);
    MemberThen(start, a, [b, c]);
  }

  lemma LastMember(start: Object, m: Member)
    requires m.WellFormed()
    ensures MembersText([m]) == m.Text()
    ensures MembersMeaning(start, [m]) == start[PiecesMeaning(m.key) := m.value.Meaning()]
  {
    assert [m][1..] == [];
  }

  lemma MemberThen(start: Object, m: Member, rest: seq<Member>)
    requires m.WellFormed() && MembersOk(rest) && rest != []
    ensures MembersOk([m] + rest)
    ensures |MembersText([m] + rest)| == |m.Text()| + 1 + |MembersText(rest)|
    ensures MembersMeaning(start, [m] + rest) == MembersMeaning(start[PiecesMeaning(m.key) := m.value.Meaning()], rest)
  {
    assert ([m] + rest)[1..] == rest;
  }

  /** A direct message of 524272 raw newlines or more, in a packet within the limit, is a command the server
      takes; but the message it has to deliver cannot be framed. */
  lemma AcceptedButUnsendable(from: string, to: string, n: nat)
    requires 1 <= TextSize(to) && TextSize(to) + n <= MAX_PAYLOAD - 31 && 2 * n > MAX_PAYLOAD - 33
    ensures exists line :: Encodable(line) && Commands.ParseClientCommand(line) == Ok(Commands.Direct(to, NewLines(n)))
    ensures !Encodable(Format(DirectMessage(from, NewLines(n))))
  {
    hide Commands.ParseClientCommand, Document.Text, Document.WellFormed, Document.Meaning, NewLines, Format,
         MessageDocument;
    var d, body := MessageDocument(to, n), NewLines(n);
    MessageDocumentMeans(to, n);
    NewLinesSize(n);
    DirectMessageIsEncodable(from, body);
    var fields := d.Meaning();
    assert Derivable(d.Text(), fields);
    assert Commands.Describes(fields, Commands.Direct(to, body));
    assert Commands.Denotes(d.Text(), Commands.Direct(to, body));
    Commands.CommandMeetsGrammar(d.Text(), Commands.Direct(to, body));
  }
}
