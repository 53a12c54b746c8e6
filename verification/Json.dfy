/** The JSON subset of the protocol: one flat object whose values are strings, unsigned 64-bit
    decimals and booleans. The parser as the source runs it, and the same parser as functions. */
module Json {
  import opened Wrappers

  datatype Value = Text(text: string) | Number(number: nat) | Bool(flag: bool)

  type Object = map<string, Value>

  const TWO_TO_THE_64: nat := 0x1_0000_0000_0000_0000

  /** `isspace` of the C locale. */
  predicate IsSpace(c: char) {
    c == ' ' || 9 <= c as int <= 13
  }

  predicate IsDigit(c: char) {
    '0' <= c <= '9'
  }

  /** The character an escape stands for; the others are refused. */
  function Unescape(c: char): Option<char> {
    match c
    case '"' => Some('"')
    case '\\' => Some('\\')
    case '/' => Some('/')
    case 'n' => Some('\n')
    case 'r' => Some('\r')
    case 't' => Some('\t')
    case _ => None
  }

  // ------------------------------------------------------------ decimals

  function DecimalValue(digits: string): nat
    requires forall i :: 0 <= i < |digits| ==> IsDigit(digits[i])
  {
    if digits == "" then 0
    else DecimalValue(digits[..|digits| - 1]) * 10 + DigitValue(digits[|digits| - 1])
  }

  function DigitValue(c: char): nat
    requires IsDigit(c)
  {
    c as int - '0' as int
  }

  /** `std::to_string`. */
  function Decimal(n: nat): (digits: string)
    ensures |digits| > 0 && forall i :: 0 <= i < |digits| ==> IsDigit(digits[i])
  {
    var last := ('0' as int + n % 10) as char;
    if n < 10 then [last] else Decimal(n / 10) + [last]
  }

  /** Printing and parsing decimals are inverse. */
  lemma {:induction false} DecimalRoundTrip(n: nat)
    ensures DecimalValue(Decimal(n)) == n
  {
    var digits := Decimal(n);
    if n < 10 {
      assert digits[..0] == "";
    } else {
      DecimalRoundTrip(n / 10);
      assert digits[..|digits| - 1] == Decimal(n / 10);
    }
  }

  // ------------------------------------------------------------ the parser as functions

  /** The value and the position after it, or the text of the exception. */
  datatype Parsed<+T> = Parsed(value: T, next: nat) | Malformed(error: string)

  function SkipWs(input: string, pos: nat): (next: nat)
    requires pos <= |input|
    ensures pos <= next <= |input|
    decreases |input| - pos
  {
    if pos < |input| && IsSpace(input[pos]) then SkipWs(input, pos + 1) else pos
  }

  function ExpectChar(input: string, pos: nat, expected: char): (r: Parsed<()>)
    requires pos <= |input|
    ensures r.Parsed? ==> pos < r.next <= |input|
  {
    var p := SkipWs(input, pos);
    if p < |input| && input[p] == expected then Parsed((), p + 1) else Malformed("malformed json")
  }

  /** The rest of a string literal, from behind its opening quote. */
  function ParseChars(input: string, pos: nat): (r: Parsed<string>)
    requires pos <= |input|
    ensures r.Parsed? ==> pos < r.next <= |input|
    decreases |input| - pos
  {
    if pos == |input| then Malformed("unterminated json string")
    else if input[pos] == '"' then Parsed("", pos + 1)
    else if input[pos] != '\\' then Prepend(input[pos], ParseChars(input, pos + 1))
    else if pos + 1 == |input| then Malformed("malformed json escape")
    else
      var c := Unescape(input[pos + 1]);
      if c.None? then Malformed("unsupported json escape") else Prepend(c.value, ParseChars(input, pos + 2))
  }

  function Prepend(c: char, rest: Parsed<string>): Parsed<string> {
    if rest.Parsed? then Parsed([c] + rest.value, rest.next) else rest
  }

  function ParseString(input: string, pos: nat): (r: Parsed<string>)
    requires pos <= |input|
    ensures r.Parsed? ==> pos < r.next <= |input|
  {
    var p := SkipWs(input, pos);
    if p < |input| && input[p] == '"' then ParseChars(input, p + 1) else Malformed("malformed json string")
  }

  function DigitsEnd(input: string, pos: nat): (end: nat)
    requires pos <= |input|
    ensures pos <= end <= |input|
    ensures forall i :: pos <= i < end ==> IsDigit(input[i])
    ensures end == |input| || !IsDigit(input[end])
    decreases |input| - pos
  {
    if pos < |input| && IsDigit(input[pos]) then DigitsEnd(input, pos + 1) else pos
  }

  /** `stoull` throws when the number does not fit 64 bits. */
  function ParseNumber(input: string, pos: nat): (r: Parsed<nat>)
    requires pos <= |input|
    ensures r.Parsed? ==> pos < r.next <= |input|
  {
    var start := SkipWs(input, pos);
    var end := DigitsEnd(input, start);
    if start == end then Malformed("malformed json number")
    else
      var n := DecimalValue(input[start..end]);
      if n >= TWO_TO_THE_64 then Malformed("stoull") else Parsed(n, end)
  }

  /** `text` stands in the input at `pos`. */
  predicate At(input: string, pos: nat, text: string) {
    pos + |text| <= |input| && Matches(input, pos, text, 0)
  }

  predicate Matches(input: string, pos: nat, text: string, i: nat)
    requires pos + |text| <= |input| && i <= |text|
    decreases |text| - i
  {
    i == |text| || (input[pos + i] == text[i] && Matches(input, pos, text, i + 1))
  }

  lemma {:induction false} MatchesMeans(input: string, pos: nat, text: string, i: nat)
    requires pos + |text| <= |input| && i <= |text|
    ensures Matches(input, pos, text, i) <==> forall k :: i <= k < |text| ==> input[pos + k] == text[k]
    decreases |text| - i
  {
    if i < |text| {
      MatchesMeans(input, pos, text, i + 1);
    }
  }

  lemma AtMeans(input: string, pos: nat, text: string)
    ensures At(input, pos, text) <==>
            pos + |text| <= |input| && forall k :: 0 <= k < |text| ==> input[pos + k] == text[k]
  {
    if pos + |text| <= |input| {
      MatchesMeans(input, pos, text, 0);
    }
  }

  function ParseBool(input: string, pos: nat): (r: Parsed<bool>)
    requires pos <= |input|
    ensures r.Parsed? ==> pos < r.next <= |input|
  {
    var p := SkipWs(input, pos);
    if At(input, p, "true") then Parsed(true, p + 4)
    else if At(input, p, "false") then Parsed(false, p + 5)
    else Malformed("malformed json bool")
  }

  function ParseValue(input: string, pos: nat): (r: Parsed<Value>)
    requires pos <= |input|
    ensures r.Parsed? ==> pos < r.next <= |input|
  {
    var p := SkipWs(input, pos);
    if p == |input| then Malformed("missing json value")
    else if input[p] == '"' then
      var s := ParseString(input, p);
      if s.Parsed? then Parsed(Text(s.value), s.next) else Malformed(s.error)
    else if IsDigit(input[p]) then
      var n := ParseNumber(input, p);
      if n.Parsed? then Parsed(Number(n.value), n.next) else Malformed(n.error)
    else if At(input, p, "true") || At(input, p, "false") then
      var b := ParseBool(input, p);
      if b.Parsed? then Parsed(Bool(b.value), b.next) else Malformed(b.error)
    else Malformed("unsupported json value")
  }

  /** One `"key": value`. */
  function ParseMember(input: string, pos: nat): (r: Parsed<(string, Value)>)
    requires pos <= |input|
    ensures r.Parsed? ==> pos < r.next <= |input|
  {
    var key := ParseString(input, pos);
    if key.Malformed? then Malformed(key.error)
    else
      var colon := ExpectChar(input, key.next, ':');
      if colon.Malformed? then Malformed(colon.error)
      else
        var value := ParseValue(input, colon.next);
        if value.Malformed? then Malformed(value.error) else Parsed((key.value, value.value), value.next)
  }

  /** Members up to and including the closing brace. */
  function ParseMembers(input: string, pos: nat, fields: Object): (r: Parsed<Object>)
    requires pos <= |input|
    ensures r.Parsed? ==> pos < r.next <= |input|
    decreases |input| - pos
  {
    var member := ParseMember(input, pos);
    if member.Malformed? then Malformed(member.error)
    else
      var fields' := fields[member.value.0 := member.value.1];
      var p := SkipWs(input, member.next);
      if p < |input| && input[p] == ',' then ParseMembers(input, p + 1, fields')
      else if p < |input| && input[p] == '}' then Parsed(fields', p + 1)
      else Malformed("malformed json object")
  }

  function ParseBody(input: string, pos: nat): Parsed<Object>
    requires pos <= |input|
    ensures ParseBody(input, pos).Parsed? ==> pos < ParseBody(input, pos).next <= |input|
  {
    var p := SkipWs(input, pos);
    if p < |input| && input[p] == '}' then Parsed(map[], p + 1) else ParseMembers(input, p, map[])
  }

  function ParseObject(line: string): Result<Object, string> {
    var open := ExpectChar(line, 0, '{');
    if open.Malformed? then Err(open.error)
    else
      var body := ParseBody(line, open.next);
      if body.Malformed? then Err(body.error)
      else if SkipWs(line, body.next) != |line| then Err("trailing json content")
      else Ok(body.value)
  }

  // ------------------------------------------------------------ the parser as the source runs it

  method RunSkipWs(input: string, start: nat) returns (pos: nat)
    requires start <= |input|
    ensures pos == SkipWs(input, start)
  {
    pos := start;
    while pos < |input| && IsSpace(input[pos])
      invariant start <= pos <= |input|
      invariant SkipWs(input, pos) == SkipWs(input, start)
    {
      pos := pos + 1;
    }
  }

  /** A literal of which `value` is already read. */
  function Onto(value: string, rest: Parsed<string>): Parsed<string> {
    if rest.Parsed? then Parsed(value + rest.value, rest.next) else rest
  }

  lemma OntoPrepend(value: string, c: char, rest: Parsed<string>)
    ensures Onto(value, Prepend(c, rest)) == Onto(value + [c], rest)
  {
    assert rest.Parsed? ==> value + ([c] + rest.value) == (value + [c]) + rest.value;
  }

  lemma OntoEnds(value: string, next: nat, rest: Parsed<string>)
    ensures Onto(value, Parsed("", next)) == Parsed(value, next)
    ensures Onto("", rest) == rest
  {
    assert value + "" == value;
    assert rest.Parsed? ==> "" + rest.value == rest.value;
  }

  method RunParseString(input: string, start: nat) returns (r: Parsed<string>)
    requires start <= |input|
    ensures r == ParseString(input, start)
  {
    hide Onto, Prepend;
    var pos := RunSkipWs(input, start);
    if pos == |input| || input[pos] != '"' {
      return Malformed("malformed json string");
    }
    pos := pos + 1;
    ghost var first := pos;
    var value := "";
    OntoEnds("", 0, ParseChars(input, first));
    while pos < |input|
      invariant first <= pos <= |input|
      invariant ParseChars(input, first) == Onto(value, ParseChars(input, pos))
    {
      var ch := input[pos];
      pos := pos + 1;
      if ch == '"' {
        OntoEnds(value, pos, ParseChars(input, pos));
        return Parsed(value, pos);
      }
      if ch != '\\' {
        OntoPrepend(value, ch, ParseChars(input, pos));
        value := value + [ch];
        continue;
      }
      if pos == |input| {
        OntoFails(value, "malformed json escape");
        return Malformed("malformed json escape");
      }
      var c := Unescape(input[pos]);
      pos := pos + 1;
      if c.None? {
        OntoFails(value, "unsupported json escape");
        return Malformed("unsupported json escape");
      }
      OntoPrepend(value, c.value, ParseChars(input, pos));
      value := value + [c.value];
    }
    OntoFails(value, "unterminated json string");
    return Malformed("unterminated json string");
  }

  lemma OntoFails(value: string, error: string)
    ensures Onto(value, Malformed(error)) == Malformed(error)
  {
  }

  method RunParseNumber(input: string, begin: nat) returns (r: Parsed<nat>)
    requires begin <= |input|
    ensures r == ParseNumber(input, begin)
  {
    var start := RunSkipWs(input, begin);
    var pos := start;
    while pos < |input| && IsDigit(input[pos])
      invariant start <= pos <= |input|
      invariant DigitsEnd(input, pos) == DigitsEnd(input, start)
    {
      pos := pos + 1;
    }
    if start == pos {
      return Malformed("malformed json number");
    }
    var n := DecimalValue(input[start..pos]);
    return if n >= TWO_TO_THE_64 then Malformed("stoull") else Parsed(n, pos);
  }

  method RunParseValue(input: string, start: nat) returns (r: Parsed<Value>)
    requires start <= |input|
    ensures r == ParseValue(input, start)
  {
    var pos := RunSkipWs(input, start);
    if pos == |input| {
      return Malformed("missing json value");
    }
    if input[pos] == '"' {
      var s := RunParseString(input, pos);
      return if s.Parsed? then Parsed(Text(s.value), s.next) else Malformed(s.error);
    }
    if IsDigit(input[pos]) {
      var n := RunParseNumber(input, pos);
      return if n.Parsed? then Parsed(Number(n.value), n.next) else Malformed(n.error);
    }
    if At(input, pos, "true") || At(input, pos, "false") {
      var b := ParseBool(input, pos);
      return if b.Parsed? then Parsed(Bool(b.value), b.next) else Malformed(b.error);
    }
    return Malformed("unsupported json value");
  }

  /** One turn of the loop up to the assignment of the member. */
  method RunParseMember(line: string, start: nat) returns (r: Parsed<(string, Value)>)
    requires start <= |line|
    ensures r == ParseMember(line, start)
  {
    var key := RunParseString(line, start);
    if key.Malformed? {
      return Malformed(key.error);
    }
    var colon := ExpectChar(line, key.next, ':');
    if colon.Malformed? {
      return Malformed(colon.error);
    }
    var value := RunParseValue(line, colon.next);
    if value.Malformed? {
      return Malformed(value.error);
    }
    return Parsed((key.value, value.value), value.next);
  }

  method RunParseMembers(line: string, start: nat) returns (r: Parsed<Object>)
    requires start <= |line|
    ensures r == ParseMembers(line, start, map[])
  {
    hide ParseMember;
    var pos, fields: Object := start, map[];
    while true
      invariant start <= pos <= |line|
      invariant ParseMembers(line, pos, fields) == ParseMembers(line, start, map[])
      decreases |line| - pos
    {
      var member := RunParseMember(line, pos);
      if member.Malformed? {
        return Malformed(member.error);
      }
      fields := fields[member.value.0 := member.value.1];
      pos := RunSkipWs(line, member.next);
      if pos < |line| && line[pos] == ',' {
        pos := pos + 1;
      } else if pos < |line| && line[pos] == '}' {
        return Parsed(fields, pos + 1);
      } else {
        return Malformed("malformed json object");
      }
    }
  }

  method RunParseObject(line: string) returns (r: Result<Object, string>)
    ensures r == ParseObject(line)
  {
    var open := ExpectChar(line, 0, '{');
    if open.Malformed? {
      return Err(open.error);
    }
    var pos := RunSkipWs(line, open.next);
    var body: Parsed<Object>;
    if pos < |line| && line[pos] == '}' {
      body := Parsed(map[], pos + 1);
    } else {
      body := RunParseMembers(line, pos);
    }
    if body.Malformed? {
      return Err(body.error);
    }
    pos := RunSkipWs(line, body.next);
    return if pos != |line| then Err("trailing json content") else Ok(body.value);
  }
}
