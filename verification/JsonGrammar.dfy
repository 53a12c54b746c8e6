/** A grammar for the same subset, as derivation trees with their text and their meaning, and the
    theorem that the parser accepts exactly the derivable texts with exactly those meanings. */
module JsonGrammar {
  import opened Wrappers
  import opened Json

  /** One element of a string literal. */
  datatype Piece = Plain(c: char) | Escape(e: char) {
    predicate WellFormed() {
      if Plain? then c != '"' && c != '\\' else Unescape(e).Some?
    }

    function Text(): string {
      if Plain? then [c] else ['\\', e]
    }

    function Meaning(): char
      requires WellFormed()
    {
      if Plain? then c else Unescape(e).value
    }
  }

  predicate PiecesOk(pieces: seq<Piece>) {
    forall i :: 0 <= i < |pieces| ==> pieces[i].WellFormed()
  }

  function PiecesText(pieces: seq<Piece>): string {
    if pieces == [] then "" else pieces[0].Text() + PiecesText(pieces[1..])
  }

  function PiecesMeaning(pieces: seq<Piece>): string
    requires PiecesOk(pieces)
  {
    if pieces == [] then "" else [pieces[0].Meaning()] + PiecesMeaning(pieces[1..])
  }

  datatype Token = StringToken(pieces: seq<Piece>) | NumberToken(digits: string) | BoolToken(flag: bool) {
    predicate WellFormed() {
      match this
      case StringToken(pieces) => PiecesOk(pieces)
      case NumberToken(digits) =>
        digits != "" && (forall i :: 0 <= i < |digits| ==> IsDigit(digits[i])) && DecimalValue(digits) < TWO_TO_THE_64
      case BoolToken(_) => true
    }

    function Text(): string {
      match this
      case StringToken(pieces) => "\"" + (PiecesText(pieces) + "\"")
      case NumberToken(digits) => digits
      case BoolToken(flag) => if flag then "true" else "false"
    }

    function Meaning(): Value
      requires WellFormed()
    {
      match this
      case StringToken(pieces) => Value.Text(PiecesMeaning(pieces))
      case NumberToken(digits) => Number(DecimalValue(digits))
      case BoolToken(flag) => Bool(flag)
    }
  }

  predicate Blank(s: string) {
    forall i :: 0 <= i < |s| ==> IsSpace(s[i])
  }

  /** `"key": value` with white space before each token and after the last. */
  datatype Member = Member(
    before: string, key: seq<Piece>, beforeColon: string, afterColon: string, value: Token, after: string)
  {
    predicate WellFormed() {
      Blank(before) && PiecesOk(key) && Blank(beforeColon) && Blank(afterColon) && value.WellFormed() && Blank(after)
    }

    function Text(): string {
      before + (StringToken(key).Text() + (beforeColon + (":" + (afterColon + (value.Text() + after)))))
    }
  }

  predicate MembersOk(members: seq<Member>) {
    forall i :: 0 <= i < |members| ==> members[i].WellFormed()
  }

  function MembersText(members: seq<Member>): string
    requires members != []
  {
    if |members| == 1 then members[0].Text() else members[0].Text() + ("," + MembersText(members[1..]))
  }

  /** Later members replace earlier ones with the same key. */
  function MembersMeaning(fields: Object, members: seq<Member>): Object
    requires MembersOk(members)
    decreases |members|
  {
    if members == [] then fields
    else MembersMeaning(fields[PiecesMeaning(members[0].key) := members[0].value.Meaning()], members[1..])
  }

  /** A whole line; `inside` is the white space of an empty object. */
  datatype Document = Document(before: string, members: seq<Member>, inside: string, after: string) {
    predicate WellFormed() {
      Blank(before) && Blank(inside) && Blank(after) && MembersOk(members)
    }

    function Text(): string {
      before + ("{" + ((if members == [] then inside else MembersText(members)) + ("}" + after)))
    }

    function Meaning(): Object
      requires WellFormed()
    {
      MembersMeaning(map[], members)
    }
  }

  // ------------------------------------------------------------ text at a position

  lemma AtSplit(input: string, pos: nat, a: string, b: string)
    ensures At(input, pos, a + b) <==> At(input, pos, a) && At(input, pos + |a|, b)
  {
    AtMeans(input, pos, a + b);
    AtMeans(input, pos, a);
    AtMeans(input, pos + |a|, b);
    if At(input, pos, a + b) {
      assert forall i :: 0 <= i < |a| ==> (a + b)[i] == a[i];
      assert forall i :: 0 <= i < |b| ==> (a + b)[|a| + i] == b[i];
    }
  }

  lemma AtChar(input: string, pos: nat, c: char)
    ensures At(input, pos, [c]) <==> pos < |input| && input[pos] == c
  {
    AtMeans(input, pos, [c]);
  }

  predicate NotSpaceAt(input: string, pos: nat) {
    pos >= |input| || !IsSpace(input[pos])
  }

  lemma {:induction false} SkipsBlank(input: string, pos: nat, blank: string)
    requires Blank(blank) && At(input, pos, blank) && NotSpaceAt(input, pos + |blank|)
    ensures SkipWs(input, pos) == pos + |blank|
    decreases |blank|
  {
    if blank != "" {
      assert input[pos] == blank[0];
      assert blank == [blank[0]] + blank[1..];
      AtSplit(input, pos, [blank[0]], blank[1..]);
      SkipsBlank(input, pos + 1, blank[1..]);
    }
  }

  /** What was skipped is white space, and what follows is not. */
  lemma {:induction false} SkippedIsBlank(input: string, pos: nat) returns (blank: string)
    requires pos <= |input|
    ensures Blank(blank) && At(input, pos, blank) && SkipWs(input, pos) == pos + |blank|
    ensures NotSpaceAt(input, SkipWs(input, pos))
    decreases |input| - pos
  {
    if pos < |input| && IsSpace(input[pos]) {
      var rest := SkippedIsBlank(input, pos + 1);
      blank := [input[pos]] + rest;
      AtChar(input, pos, input[pos]);
      AtSplit(input, pos, [input[pos]], rest);
    } else {
      blank := "";
    }
  }

  lemma SkipTwice(input: string, pos: nat)
    requires pos <= |input|
    ensures SkipWs(input, SkipWs(input, pos)) == SkipWs(input, pos)
  {
    var blank := SkippedIsBlank(input, pos);
  }

  // ------------------------------------------------------------ strings

  lemma {:induction false} PiecesParse(input: string, pos: nat, pieces: seq<Piece>)
    requires PiecesOk(pieces) && At(input, pos, PiecesText(pieces) + "\"")
    ensures ParseChars(input, pos) == Parsed(PiecesMeaning(pieces), pos + |PiecesText(pieces)| + 1)
    decreases |pieces|
  {
    if pieces == [] {
      assert "" + "\"" == "\"";
      AtChar(input, pos, '"');
    } else {
      var first, rest := pieces[0].Text(), PiecesText(pieces[1..]) + "\"";
      assert PiecesText(pieces) + "\"" == first + rest;
      AtSplit(input, pos, first, rest);
      PiecesParse(input, pos + |first|, pieces[1..]);
      assert pieces[0].WellFormed();
      AtMeans(input, pos, first);
      assert input[pos + 0] == first[0] && (pieces[0].Escape? ==> input[pos + 1] == first[1]);
    }
  }

  lemma {:induction false} ParsedPieces(input: string, pos: nat) returns (pieces: seq<Piece>)
    requires pos <= |input| && ParseChars(input, pos).Parsed?
    ensures PiecesOk(pieces) && At(input, pos, PiecesText(pieces) + "\"")
    ensures ParseChars(input, pos) == Parsed(PiecesMeaning(pieces), pos + |PiecesText(pieces)| + 1)
    decreases |input| - pos
  {
    if input[pos] == '"' {
      pieces := [];
      AtChar(input, pos, '"');
    } else {
      var piece := if input[pos] != '\\' then Plain(input[pos]) else Escape(input[pos + 1]);
      var first := piece.Text();
      assert At(input, pos, first);
      var rest := ParsedPieces(input, pos + |first|);
      pieces := [piece] + rest;
      assert PiecesText(pieces) + "\"" == first + (PiecesText(rest) + "\"");
      AtSplit(input, pos, first, PiecesText(rest) + "\"");
    }
  }

  lemma StringParses(input: string, pos: nat, before: string, pieces: seq<Piece>)
    requires Blank(before) && PiecesOk(pieces) && At(input, pos, before + StringToken(pieces).Text())
    ensures ParseString(input, pos) == Parsed(PiecesMeaning(pieces), pos + |before| + |StringToken(pieces).Text()|)
  {
    hide At, PiecesText, PiecesMeaning, ParseChars, SkipWs, Blank;
    var start := pos + |before|;
    AtSplit(input, pos, before, StringToken(pieces).Text());
    AtSplit(input, start, "\"", PiecesText(pieces) + "\"");
    AtChar(input, start, '"');
    SkipsBlank(input, pos, before);
    PiecesParse(input, start + 1, pieces);
  }

  lemma ParsedString(input: string, pos: nat) returns (before: string, pieces: seq<Piece>)
    requires pos <= |input| && ParseString(input, pos).Parsed?
    ensures Blank(before) && PiecesOk(pieces) && At(input, pos, before + StringToken(pieces).Text())
    ensures ParseString(input, pos) == Parsed(PiecesMeaning(pieces), pos + |before| + |StringToken(pieces).Text()|)
  {
    before := SkippedIsBlank(input, pos);
    var start := pos + |before|;
    pieces := ParsedPieces(input, start + 1);
    AtChar(input, start, '"');
    AtSplit(input, start, "\"", PiecesText(pieces) + "\"");
    AtSplit(input, pos, before, StringToken(pieces).Text());
  }

  // ------------------------------------------------------------ values

  /** A token ends where it ends: what follows is not one more digit. */
  predicate Delimited(input: string, pos: nat) {
    pos < |input| ==> !IsDigit(input[pos])
  }

  lemma TokenStart(token: Token)
    requires token.WellFormed()
    ensures token.Text() != "" && !IsSpace(token.Text()[0])
    ensures token.Text()[0] == '"' <==> token.StringToken?
    ensures IsDigit(token.Text()[0]) <==> token.NumberToken?
  {
  }

  lemma {:induction false} DigitsParse(input: string, pos: nat, digits: string)
    requires (forall i :: 0 <= i < |digits| ==> IsDigit(digits[i])) && At(input, pos, digits)
    requires Delimited(input, pos + |digits|)
    ensures DigitsEnd(input, pos) == pos + |digits|
  {
    hide At, DecimalValue;
    AtMeans(input, pos, digits);
    assert forall i :: pos <= i < pos + |digits| ==> input[i] == digits[i - pos];
  }

  lemma NumberParses(input: string, start: nat, digits: string)
    requires NumberToken(digits).WellFormed() && At(input, start, digits) && Delimited(input, start + |digits|)
    ensures ParseNumber(input, start) == Parsed(DecimalValue(digits), start + |digits|)
  {
    hide At, DecimalValue, DigitsEnd, Token.WellFormed;
    DigitsStand(input, start, digits);
    DigitsParse(input, start, digits);
    NumberEnds(input, start, start + |digits|);
  }

  lemma NumberEnds(input: string, start: nat, end: nat)
    requires start < end <= |input| && !IsSpace(input[start]) && DigitsEnd(input, start) == end
    requires DecimalValue(input[start..end]) < TWO_TO_THE_64
    ensures ParseNumber(input, start) == Parsed(DecimalValue(input[start..end]), end)
  {
    hide DecimalValue, DigitsEnd;
    SkipsBlank(input, start, "");
  }

  lemma DigitsStand(input: string, start: nat, digits: string)
    requires NumberToken(digits).WellFormed() && At(input, start, digits)
    ensures start + |digits| <= |input| && input[start..start + |digits|] == digits
    ensures digits != "" && !IsSpace(input[start]) && DecimalValue(digits) < TWO_TO_THE_64
    ensures forall i :: 0 <= i < |digits| ==> IsDigit(digits[i])
  {
    hide At, DecimalValue;
    AtMeans(input, start, digits);
    assert input[start + 0] == digits[0];
  }

  lemma TokenParses(input: string, start: nat, token: Token)
    requires token.WellFormed() && At(input, start, token.Text()) && Delimited(input, start + |token.Text()|)
    ensures ParseValue(input, start) == Parsed(token.Meaning(), start + |token.Text()|)
  {
    hide ParseString, ParseNumber;
    TokenStart(token);
    AtMeans(input, start, token.Text());
    assert input[start + 0] == token.Text()[0];
    match token
    case StringToken(pieces) =>
      assert "" + token.Text() == token.Text();
      StringParses(input, start, "", pieces);
    case NumberToken(digits) => NumberParses(input, start, digits);
    case BoolToken(flag) => assert "true"[0] == 't' && "false"[0] == 'f';
  }

  lemma ValueParses(input: string, pos: nat, before: string, token: Token)
    requires Blank(before) && token.WellFormed() && At(input, pos, before + token.Text())
    requires Delimited(input, pos + |before| + |token.Text()|)
    ensures ParseValue(input, pos) == Parsed(token.Meaning(), pos + |before| + |token.Text()|)
  {
    hide ParseString, ParseNumber, ParseBool, At;
    var start := pos + |before|;
    AtSplit(input, pos, before, token.Text());
    TokenStart(token);
    AtMeans(input, start, token.Text());
    assert input[start + 0] == token.Text()[0];
    SkipsBlank(input, pos, before);
    TokenParses(input, start, token);
  }

  lemma ParsedValue(input: string, pos: nat) returns (before: string, token: Token)
    requires pos <= |input| && ParseValue(input, pos).Parsed?
    ensures Blank(before) && token.WellFormed() && At(input, pos, before + token.Text())
    ensures ParseValue(input, pos) == Parsed(token.Meaning(), pos + |before| + |token.Text()|)
  {
    before := SkippedIsBlank(input, pos);
    SkipTwice(input, pos);
    token := ParsedToken(input, pos + |before|);
    AtSplit(input, pos, before, token.Text());
  }

  lemma ParsedToken(input: string, start: nat) returns (token: Token)
    requires start < |input| && SkipWs(input, start) == start && ParseValue(input, start).Parsed?
    ensures token.WellFormed() && At(input, start, token.Text())
    ensures ParseValue(input, start) == Parsed(token.Meaning(), start + |token.Text()|)
  {
    if input[start] == '"' {
      var before, pieces := ParsedString(input, start);
      AtSplit(input, start, before, StringToken(pieces).Text());
      if before != "" {
        SkipsSome(input, start, before);
      }
      token := StringToken(pieces);
    } else if IsDigit(input[start]) {
      token := NumberToken(input[start..DigitsEnd(input, start)]);
      AtMeans(input, start, token.digits);
    } else {
      token := BoolToken(At(input, start, "true"));
    }
  }

  lemma SkipsSome(input: string, pos: nat, blank: string)
    requires pos <= |input| && blank != "" && Blank(blank) && At(input, pos, blank)
    ensures SkipWs(input, pos) > pos
  {
    assert input[pos + 0] == blank[0];
  }

  // ------------------------------------------------------------ members

  /** Where a member's value ends, relative to its start. */
  function ValueEnd(m: Member): nat {
    |m.before| + |StringToken(m.key).Text()| + |m.beforeColon| + 1 + |m.afterColon| + |m.value.Text()|
  }

  /** A comma or the closing brace follows. */
  predicate Closed(input: string, pos: nat) {
    pos < |input| && (input[pos] == ',' || input[pos] == '}')
  }

  lemma MemberPieces(input: string, pos: nat, m: Member)
    ensures At(input, pos, m.Text()) <==>
            var colon := pos + |m.before| + |StringToken(m.key).Text()|;
            && At(input, pos, m.before + StringToken(m.key).Text())
            && At(input, colon, m.beforeColon)
            && At(input, colon + |m.beforeColon|, ":")
            && At(input, colon + |m.beforeColon| + 1, m.afterColon + m.value.Text())
            && At(input, pos + ValueEnd(m), m.after)
  {
    var key := StringToken(m.key).Text();
    var colon := pos + |m.before| + |key|;
    var tail := m.value.Text() + m.after;
    AtSplit(input, pos, m.before, key + (m.beforeColon + (":" + (m.afterColon + tail))));
    AtSplit(input, pos + |m.before|, key, m.beforeColon + (":" + (m.afterColon + tail)));
    AtSplit(input, pos, m.before, key);
    AtSplit(input, colon, m.beforeColon, ":" + (m.afterColon + tail));
    AtSplit(input, colon + |m.beforeColon|, ":", m.afterColon + tail);
    var value := colon + |m.beforeColon| + 1;
    AtSplit(input, value, m.afterColon, tail);
    AtSplit(input, value + |m.afterColon|, m.value.Text(), m.after);
    AtSplit(input, value, m.afterColon, m.value.Text());
  }

  /** One turn of the parser's loop, from the positions its parts end at. */
  lemma MemberStep(input: string, pos: nat, key: string, keyEnd: nat, colon: nat, value: Value, end: nat)
    requires pos <= |input| && ParseString(input, pos) == Parsed(key, keyEnd)
    requires SkipWs(input, keyEnd) == colon < |input| && input[colon] == ':'
    requires ParseValue(input, colon + 1) == Parsed(value, end)
    ensures ParseMember(input, pos) == Parsed((key, value), end)
  {
    hide ParseString, ParseValue;
  }

  lemma CommaStep(input: string, pos: nat, fields: Object, key: string, value: Value, next: nat, end: nat)
    requires pos <= |input| && ParseMember(input, pos) == Parsed((key, value), next)
    requires SkipWs(input, next) == end < |input| && input[end] == ','
    ensures ParseMembers(input, pos, fields) == ParseMembers(input, end + 1, fields[key := value])
  {
    hide ParseMember;
  }

  lemma BraceStep(input: string, pos: nat, fields: Object, key: string, value: Value, next: nat, end: nat)
    requires pos <= |input| && ParseMember(input, pos) == Parsed((key, value), next)
    requires SkipWs(input, next) == end < |input| && input[end] == '}'
    ensures ParseMembers(input, pos, fields) == Parsed(fields[key := value], end + 1)
  {
    hide ParseMember;
  }

  lemma AfterToken(input: string, end: nat, after: string)
    requires Blank(after) && At(input, end, after) && Closed(input, end + |after|)
    ensures Delimited(input, end) && SkipWs(input, end) == end + |after|
  {
    AtMeans(input, end, after);
    assert after != "" ==> input[end + 0] == after[0];
    SkipsBlank(input, end, after);
  }

  lemma MemberParses(input: string, pos: nat, m: Member)
    requires m.WellFormed() && At(input, pos, m.Text()) && Closed(input, pos + |m.Text()|)
    ensures ParseMember(input, pos) == Parsed((PiecesMeaning(m.key), m.value.Meaning()), pos + ValueEnd(m))
    ensures SkipWs(input, pos + ValueEnd(m)) == pos + |m.Text()|
  {
    hide At, ParseString, ParseValue, ParseMember, Member.Text, Token.Text, Closed, Delimited;
    MemberPieces(input, pos, m);
    MemberLength(m);
    var keyEnd := pos + |m.before| + |StringToken(m.key).Text()|;
    var colon := keyEnd + |m.beforeColon|;
    StringParses(input, pos, m.before, m.key);
    AtChar(input, colon, ':');
    SkipsBlank(input, keyEnd, m.beforeColon);
    AfterToken(input, pos + ValueEnd(m), m.after);
    ValueParses(input, colon + 1, m.afterColon, m.value);
    MemberStep(input, pos, PiecesMeaning(m.key), keyEnd, colon, m.value.Meaning(), pos + ValueEnd(m));
  }

  lemma MemberLength(m: Member)
    ensures |m.Text()| == ValueEnd(m) + |m.after|
  {
  }

  lemma ParsedMember(input: string, pos: nat) returns (m: Member)
    requires pos <= |input| && ParseMember(input, pos).Parsed?
    ensures m.WellFormed() && At(input, pos, m.Text())
    ensures ParseMember(input, pos) == Parsed((PiecesMeaning(m.key), m.value.Meaning()), pos + ValueEnd(m))
    ensures SkipWs(input, pos + ValueEnd(m)) == pos + |m.Text()|
  {
    hide ParseMember, ParseString, ParseValue, At, SkipWs, PiecesText, PiecesMeaning, Blank;
    var before, key, beforeColon := ParsedKey(input, pos);
    var keyEnd := pos + |before| + |StringToken(key).Text()|;
    var afterColon, value, after := ParsedRest(input, keyEnd + |beforeColon| + 1);
    m := Member(before, key, beforeColon, afterColon, value, after);
    MemberStep(input, pos, PiecesMeaning(key), keyEnd, keyEnd + |beforeColon|, value.Meaning(), pos + ValueEnd(m));
    MemberLength(m);
    MemberPieces(input, pos, m);
  }

  lemma ParsedRest(input: string, pos: nat) returns (afterColon: string, value: Token, after: string)
    requires pos <= |input| && ParseValue(input, pos).Parsed?
    ensures Blank(afterColon) && value.WellFormed() && Blank(after)
    ensures var end := pos + |afterColon| + |value.Text()|;
            && ParseValue(input, pos) == Parsed(value.Meaning(), end)
            && At(input, pos, afterColon + value.Text())
            && At(input, end, after) && SkipWs(input, end) == end + |after|
  {
    afterColon, value := ParsedValue(input, pos);
    after := SkippedIsBlank(input, pos + |afterColon| + |value.Text()|);
  }

  lemma ParsedKey(input: string, pos: nat) returns (before: string, key: seq<Piece>, beforeColon: string)
    requires pos <= |input| && ParseMember(input, pos).Parsed?
    ensures Blank(before) && PiecesOk(key) && Blank(beforeColon)
    ensures var end := pos + |before| + |StringToken(key).Text()|;
            var colon := end + |beforeColon|;
            && ParseString(input, pos) == Parsed(PiecesMeaning(key), end)
            && At(input, pos, before + StringToken(key).Text())
            && At(input, end, beforeColon) && SkipWs(input, end) == colon
            && colon < |input| && input[colon] == ':' && At(input, colon, ":")
            && ParseValue(input, colon + 1).Parsed?
  {
    hide ParseString, ParseValue, At;
    before, key := ParsedString(input, pos);
    var end := pos + |before| + |StringToken(key).Text()|;
    beforeColon := SkippedIsBlank(input, end);
    AtChar(input, end + |beforeColon|, ':');
  }

  /** The parts of a member list and where they stand. */
  lemma MembersPieces(input: string, pos: nat, members: seq<Member>)
    requires members != []
    ensures At(input, pos, MembersText(members) + "}") <==>
            var end := pos + |members[0].Text()|;
            && At(input, pos, members[0].Text())
            && if |members| == 1 then end < |input| && input[end] == '}'
               else end < |input| && input[end] == ',' && At(input, end + 1, MembersText(members[1..]) + "}")
  {
    hide At, Member.Text;
    var text := members[0].Text();
    if |members| == 1 {
      AtSplit(input, pos, text, "}");
      AtChar(input, pos + |text|, '}');
    } else {
      var rest := MembersText(members[1..]);
      AtListSplit(input, pos, text, rest);
    }
  }

  lemma AtListSplit(input: string, pos: nat, text: string, rest: string)
    ensures At(input, pos, (text + ("," + rest)) + "}") <==>
            var end := pos + |text|;
            && At(input, pos, text) && end < |input| && input[end] == ',' && At(input, end + 1, rest + "}")
  {
    assert (text + ("," + rest)) + "}" == text + ("," + (rest + "}"));
    AtSplit(input, pos, text, "," + (rest + "}"));
    AtSplit(input, pos + |text|, ",", rest + "}");
    AtChar(input, pos + |text|, ',');
  }

  /** The fields after the first member. */
  function WithFirst(fields: Object, members: seq<Member>): Object
    requires members != [] && MembersOk(members)
  {
    fields[PiecesMeaning(members[0].key) := members[0].value.Meaning()]
  }

  lemma OneMember(fields: Object, members: seq<Member>)
    requires |members| == 1 && MembersOk(members)
    ensures MembersMeaning(fields, members) == WithFirst(fields, members)
  {
    assert MembersMeaning(WithFirst(fields, members), members[1..]) == WithFirst(fields, members);
  }

  /** The first member and what is left to parse after it. */
  lemma MembersHead(input: string, pos: nat, fields: Object, members: seq<Member>) returns (end: nat)
    requires members != [] && MembersOk(members) && At(input, pos, MembersText(members) + "}")
    ensures pos <= end < |input|
    ensures if |members| == 1 then
              && ParseMembers(input, pos, fields) == Parsed(WithFirst(fields, members), end + 1)
              && end == pos + |MembersText(members)|
            else
              && ParseMembers(input, pos, fields) == ParseMembers(input, end + 1, WithFirst(fields, members))
              && At(input, end + 1, MembersText(members[1..]) + "}")
              && end + 1 + |MembersText(members[1..])| == pos + |MembersText(members)|
  {
    hide At, ParseMember, ParseMembers, Member.Text;
    var m := members[0];
    var key, value, next := PiecesMeaning(m.key), m.value.Meaning(), pos + ValueEnd(m);
    end := pos + |m.Text()|;
    MembersPieces(input, pos, members);
    MemberParses(input, pos, m);
    if |members| == 1 {
      BraceStep(input, pos, fields, key, value, next, end);
    } else {
      CommaStep(input, pos, fields, key, value, next, end);
    }
  }

  lemma {:induction false} MembersParse(input: string, pos: nat, fields: Object, members: seq<Member>)
    requires members != [] && MembersOk(members) && At(input, pos, MembersText(members) + "}")
    ensures ParseMembers(input, pos, fields) ==
            Parsed(MembersMeaning(fields, members), pos + |MembersText(members)| + 1)
    decreases |members|
  {
    hide ParseMember, Member.Text;
    var end := MembersHead(input, pos, fields, members);
    var fields', rest := WithFirst(fields, members), members[1..];
    if |members| == 1 {
      OneMember(fields, members);
    } else {
      MeaningStep(fields, members);
      MembersParse(input, end + 1, fields', rest);
      SameOutcome(ParseMembers(input, pos, fields), ParseMembers(input, end + 1, fields'),
                  MembersMeaning(fields', rest), end + 1 + |MembersText(rest)| + 1);
    }
  }

  lemma MeaningStep(fields: Object, members: seq<Member>)
    requires members != [] && MembersOk(members)
    ensures MembersMeaning(fields, members) == MembersMeaning(WithFirst(fields, members), members[1..])
  {
  }

  lemma SameOutcome(a: Parsed<Object>, b: Parsed<Object>, value: Object, next: nat)
    requires a == b && b == Parsed(value, next)
    ensures a == Parsed(value, next)
  {
  }

  lemma TurnParses(input: string, pos: nat, fields: Object)
    requires pos <= |input| && ParseMembers(input, pos, fields).Parsed?
    ensures ParseMember(input, pos).Parsed?
  {
  }

  lemma NextTurn(input: string, pos: nat, fields: Object, key: string, value: Value, next: nat, end: nat)
    requires pos <= |input| && ParseMembers(input, pos, fields).Parsed?
    requires ParseMember(input, pos) == Parsed((key, value), next) && next <= |input| && SkipWs(input, next) == end
    ensures end < |input|
    ensures input[end] == '}' || (input[end] == ',' && ParseMembers(input, end + 1, fields[key := value]).Parsed?)
  {
    hide ParseMember;
  }

  lemma {:induction false} ParsedMembers(input: string, pos: nat, fields: Object) returns (members: seq<Member>)
    requires pos <= |input| && ParseMembers(input, pos, fields).Parsed?
    ensures members != [] && MembersOk(members) && At(input, pos, MembersText(members) + "}")
    decreases |input| - pos
  {
    hide ParseMember, ParseMembers, At, Member.Text;
    TurnParses(input, pos, fields);
    var m := ParsedMember(input, pos);
    var end := pos + |m.Text()|;
    NextTurn(input, pos, fields, PiecesMeaning(m.key), m.value.Meaning(), pos + ValueEnd(m), end);
    var rest := [];
    if input[end] == ',' {
      rest := ParsedMembers(input, end + 1, WithFirst(fields, [m]));
    }
    members := [m] + rest;
    FirstAndRest(m, rest);
    MembersPieces(input, pos, members);
  }

  lemma FirstAndRest(m: Member, rest: seq<Member>)
    requires m.WellFormed() && MembersOk(rest)
    ensures var members := [m] + rest; members[0] == m && members[1..] == rest && MembersOk(members)
  {
  }

  // ------------------------------------------------------------ lines

  /** Skipping white space before the first member changes nothing: its key skips it again. */
  lemma MembersSkip(input: string, pos: nat, fields: Object)
    requires pos <= |input|
    ensures ParseMembers(input, SkipWs(input, pos), fields) == ParseMembers(input, pos, fields)
  {
    hide ParseMember;
    MemberSkip(input, pos);
  }

  lemma MemberSkip(input: string, pos: nat)
    requires pos <= |input|
    ensures ParseMember(input, SkipWs(input, pos)) == ParseMember(input, pos)
  {
    hide ParseString, ParseValue;
    assert ParseString(input, SkipWs(input, pos)) == ParseString(input, pos) by { StringSkip(input, pos); }
  }

  lemma StringSkip(input: string, pos: nat)
    requires pos <= |input|
    ensures ParseString(input, SkipWs(input, pos)) == ParseString(input, pos)
  {
    SkipTwice(input, pos);
  }

  /** The text between the braces. */
  function Inner(d: Document): string {
    if d.members == [] then d.inside else MembersText(d.members)
  }

  /** The parts of a line and where they stand. */
  ghost predicate PartsAt(line: string, d: Document) {
    && At(line, 0, d.before) && At(line, |d.before|, "{")
    && At(line, |d.before| + 1, Inner(d) + "}")
    && At(line, |d.before| + 1 + |Inner(d)| + 1, d.after)
    && |line| == |d.before| + 1 + |Inner(d)| + 1 + |d.after|
  }

  lemma DocumentPieces(line: string, d: Document)
    ensures line == d.Text() <==> PartsAt(line, d)
  {
    BracedSplit(line, d.before, Inner(d), d.after);
  }

  lemma BracedSplit(line: string, before: string, inner: string, after: string)
    ensures line == before + ("{" + (inner + ("}" + after))) <==>
            && At(line, 0, before) && At(line, |before|, "{")
            && At(line, |before| + 1, inner + "}") && At(line, |before| + 1 + |inner| + 1, after)
            && |line| == |before| + 1 + |inner| + 1 + |after|
  {
    AtSplit(line, 0, before, "{" + (inner + ("}" + after)));
    AtSplit(line, |before|, "{", inner + ("}" + after));
    assert inner + ("}" + after) == (inner + "}") + after;
    AtSplit(line, |before| + 1, inner + "}", after);
    if |line| == |before| + 1 + |inner| + 1 + |after| {
      AtWhole(line, before + ("{" + (inner + ("}" + after))));
    }
  }

  lemma AtWhole(line: string, text: string)
    requires |line| == |text|
    ensures At(line, 0, text) <==> line == text
  {
    AtMeans(line, 0, text);
    if At(line, 0, text) {
      assert forall i :: 0 <= i < |line| ==> line[0 + i] == text[i];
    }
  }

  lemma BodyParses(d: Document)
    requires d.WellFormed()
    ensures ParseBody(d.Text(), |d.before| + 1) == Parsed(d.Meaning(), |d.before| + 1 + |Inner(d)| + 1)
  {
    var line, start := d.Text(), |d.before| + 1;
    DocumentPieces(line, d);
    if d.members == [] {
      AtSplit(line, start, d.inside, "}");
      AtChar(line, start + |d.inside|, '}');
      SkipsBlank(line, start, d.inside);
    } else {
      MembersParse(line, start, map[], d.members);
      MembersSkip(line, start, map[]);
      FirstKeyOpens(line, start);
    }
  }

  lemma FirstKeyOpens(input: string, pos: nat)
    requires pos <= |input| && ParseMembers(input, pos, map[]).Parsed?
    ensures SkipWs(input, pos) < |input| && input[SkipWs(input, pos)] == '"'
  {
    assert ParseMember(input, pos).Parsed?;
    assert ParseString(input, pos).Parsed?;
  }

  /** Completeness: every derivable line is accepted with its meaning. */
  lemma DerivableParses(d: Document)
    requires d.WellFormed()
    ensures ParseObject(d.Text()) == Ok(d.Meaning())
  {
    hide ParseBody, At, SkipWs, Blank, MembersText, MembersMeaning, MembersOk;
    var line := d.Text();
    DocumentPieces(line, d);
    AtChar(line, |d.before|, '{');
    SkipsBlank(line, 0, d.before);
    BodyParses(d);
    SkipsBlank(line, |line| - |d.after|, d.after);
  }

  /** Soundness: every accepted line has a derivation with that meaning. */
  lemma ParsedIsDerivable(line: string) returns (d: Document)
    requires ParseObject(line).Ok?
    ensures d.WellFormed() && d.Text() == line && d.Meaning() == ParseObject(line).value
  {
    hide At, ParseBody;
    var before := SkippedIsBlank(line, 0);
    var members, inside := ParsedBody(line, |before| + 1);
    var after := SkippedIsBlank(line, ParseBody(line, |before| + 1).next);
    d := Document(before, members, inside, after);
    AtChar(line, |before|, '{');
    assert Inner(d) == Inner(Document("", members, inside, ""));
    DocumentPieces(line, d);
  }

  lemma ParsedBody(line: string, start: nat) returns (members: seq<Member>, inside: string)
    requires start <= |line| && ParseBody(line, start).Parsed?
    ensures MembersOk(members) && Blank(inside)
    ensures var inner := Inner(Document("", members, inside, ""));
            && At(line, start, inner + "}")
            && ParseBody(line, start) == Parsed(MembersMeaning(map[], members), start + |inner| + 1)
  {
    hide At, ParseMember;
    inside := SkippedIsBlank(line, start);
    if line[start + |inside|] == '}' {
      members := [];
      AtChar(line, start + |inside|, '}');
      AtSplit(line, start, inside, "}");
    } else {
      MembersSkip(line, start, map[]);
      members := ParsedMembers(line, start, map[]);
      MembersParse(line, start, map[], members);
    }
  }

  ghost predicate Derivable(line: string, fields: Object) {
    exists d: Document :: d.WellFormed() && d.Text() == line && d.Meaning() == fields
  }

  /** The parser accepts a line with fields m exactly when the grammar derives the line with m. */
  lemma ParserMeetsGrammar(line: string, fields: Object)
    ensures ParseObject(line) == Ok(fields) <==> Derivable(line, fields)
  {
    if ParseObject(line) == Ok(fields) {
      var d := ParsedIsDerivable(line);
      assert Derivable(line, fields);
    }
    if Derivable(line, fields) {
      var d: Document :| d.WellFormed() && d.Text() == line && d.Meaning() == fields;
      DerivableParses(d);
    }
  }
}
