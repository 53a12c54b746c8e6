/** Password records: `pbkdf2_sha256$iterations$salt$hash` with both byte strings in hexadecimal. */
module Passwords {
  import opened Wrappers
  import opened Json

  type Byte = n: nat | n < 256

  const KDF_BYTES := 32

  /** PBKDF2 as an abstract function: the derived key for a password, an iteration count and a salt,
      or nothing when the library call fails. */
  type Kdf = (string, nat, seq<Byte>) -> Option<seq<Byte>>

  ghost predicate DerivesKeys(kdf: Kdf) {
    forall p, n, salt :: kdf(p, n, salt).Some? ==> |kdf(p, n, salt).value| == KDF_BYTES
  }

  // ------------------------------------------------------------ hexadecimal

  function HexDigit(n: nat): char
    requires n < 16
  {
    if n < 10 then ('0' as int + n) as char else ('a' as int + n - 10) as char
  }

  function HexValue(c: char): Option<nat> {
    if '0' <= c <= '9' then Some(c as int - '0' as int)
    else if 'a' <= c <= 'f' then Some(c as int - 'a' as int + 10)
    else if 'A' <= c <= 'F' then Some(c as int - 'A' as int + 10)
    else None
  }

  function ToHex(bytes: seq<Byte>): (hex: string)
    ensures |hex| == 2 * |bytes|
    ensures forall i :: 0 <= i < |hex| ==> HexValue(hex[i]).Some?
  {
    if bytes == [] then "" else [HexDigit(bytes[0] / 16), HexDigit(bytes[0] % 16)] + ToHex(bytes[1..])
  }

  /** `strtol` with base 16 on two characters, when it stops at their end with a value from 0 to 255:
      white space, a sign or a NUL may stand for a digit. */
  function HexByte(a: char, b: char): Option<Byte> {
    var high, low := HexValue(a), HexValue(b);
    if a == 0 as char then Some(0)
    else if high.Some? then
      if b == 0 as char then Some(high.value)
      else if low.Some? then CombineHex(high.value, low.value)
      else None
    else if low.Some? && (IsSpace(a) || a == '+') then CombineHex(0, low.value)
    else if b == '0' && a == '-' then Some(0)
    else None
  }

  function CombineHex(high: nat, low: nat): Option<Byte> {
    if high * 16 + low < 256 then Some(high * 16 + low) else None
  }

  /** All the bytes, or none of them when one pair is refused or the length is odd. */
  function FromHex(hex: string): seq<Byte> {
    if |hex| % 2 != 0 then [] else FromPairs(hex).GetOr([])
  }

  function FromPairs(hex: string): Option<seq<Byte>>
    requires |hex| % 2 == 0
  {
    if hex == "" then Some([])
    else
      var byte, rest := HexByte(hex[0], hex[1]), FromPairs(hex[2..]);
      if byte.Some? && rest.Some? then Some([byte.value] + rest.value) else None
  }

  lemma {:induction false} FromHexUndoesToHex(bytes: seq<Byte>)
    ensures FromHex(ToHex(bytes)) == bytes && FromPairs(ToHex(bytes)) == Some(bytes)
  {
    if bytes != [] {
      FromHexUndoesToHex(bytes[1..]);
      assert ToHex(bytes)[2..] == ToHex(bytes[1..]);
      HexByteOfDigits(bytes[0]);
    }
  }

  lemma HexByteOfDigits(byte: Byte)
    ensures HexByte(HexDigit(byte / 16), HexDigit(byte % 16)) == Some(byte)
  {
  }

  method RunToHex(data: seq<Byte>) returns (out: string)
    ensures out == ToHex(data)
  {
    out := "";
    for i := 0 to |data|
      invariant out + ToHex(data[i..]) == ToHex(data)
    {
      var pair := [HexDigit(data[i] / 16), HexDigit(data[i] % 16)];
      assert data[i..][1..] == data[i + 1..];
      assert out + (pair + ToHex(data[i + 1..])) == (out + pair) + ToHex(data[i + 1..]);
      out := out + pair;
    }
    assert data[|data|..] == [] && out + "" == out;
  }

  method RunFromHex(hex: string) returns (bytes: seq<Byte>)
    ensures bytes == FromHex(hex)
  {
    if |hex| % 2 != 0 {
      return [];
    }
    bytes := [];
    var i := 0;
    assert hex[0..] == hex;
    BeforeNone(FromPairs(hex));
    while i < |hex|
      invariant 0 <= i <= |hex| && i % 2 == 0
      invariant FromPairs(hex) == Before(bytes, FromPairs(hex[i..]))
    {
      var byte := HexByte(hex[i], hex[i + 1]);
      assert hex[i..][2..] == hex[i + 2..];
      if byte.None? {
        return [];
      }
      BeforeOne(bytes, byte.value, FromPairs(hex[i + 2..]));
      bytes := bytes + [byte.value];
      i := i + 2;
    }
    assert bytes + [] == bytes;
  }

  function Before(bytes: seq<Byte>, rest: Option<seq<Byte>>): Option<seq<Byte>> {
    if rest.Some? then Some(bytes + rest.value) else None
  }

  lemma BeforeNone(rest: Option<seq<Byte>>)
    ensures Before([], rest) == rest
  {
    if rest.Some? {
      assert [] + rest.value == rest.value;
    }
  }

  lemma BeforeOne(bytes: seq<Byte>, byte: Byte, rest: Option<seq<Byte>>)
    ensures Before(bytes + [byte], rest) == Before(bytes, Before([byte], rest))
  {
    if rest.Some? {
      assert (bytes + [byte]) + rest.value == bytes + ([byte] + rest.value);
    }
  }

  // ------------------------------------------------------------ splitting

  /** Position of the first delimiter, or the length. */
  function Until(s: string, delimiter: char): (i: nat)
    ensures i <= |s| && (i < |s| ==> s[i] == delimiter) && delimiter !in s[..i]
  {
    if s == "" || s[0] == delimiter then 0
    else
      assert s[..1 + Until(s[1..], delimiter)] == [s[0]] + s[1..][..Until(s[1..], delimiter)];
      1 + Until(s[1..], delimiter)
  }

  /** Repeated `getline`: the parts between delimiters, without an empty part at the very end. */
  function Split(s: string, delimiter: char): seq<string>
    decreases |s|
  {
    if s == "" then []
    else
      var i := Until(s, delimiter);
      if i == |s| then [s] else [s[..i]] + Split(s[i + 1..], delimiter)
  }

  lemma {:induction false} UntilIs(part: string, delimiter: char, rest: string)
    requires delimiter !in part
    ensures Until(part + [delimiter] + rest, delimiter) == |part|
    ensures Until(part, delimiter) == |part|
  {
    if part != "" {
      assert (part + [delimiter] + rest)[1..] == part[1..] + [delimiter] + rest;
      UntilIs(part[1..], delimiter, rest);
    }
  }

  lemma SplitPart(part: string, delimiter: char, rest: string)
    requires delimiter !in part
    ensures Split(part + [delimiter] + rest, delimiter) == [part] + Split(rest, delimiter)
  {
    UntilIs(part, delimiter, rest);
    var s := part + [delimiter] + rest;
    assert s[..|part|] == part && s[|part| + 1..] == rest;
  }

  lemma SplitLast(part: string, delimiter: char)
    requires delimiter !in part && part != ""
    ensures Split(part, delimiter) == [part]
  {
    UntilIs(part, delimiter, "");
  }

  // ------------------------------------------------------------ records

  const SCHEME := "pbkdf2_sha256"
  const INT_LIMIT := 0x8000_0000

  /** `stoi`: leading white space, a sign and the digits at the front; what follows is ignored. */
  function Stoi(text: string): Option<int> {
    var start := SkipWs(text, 0);
    var signed := start < |text| && (text[start] == '-' || text[start] == '+');
    var first := if signed then start + 1 else start;
    var end := DigitsEnd(text, first);
    if end == first then None
    else
      var magnitude: int := DecimalValue(text[first..end]);
      var value := if signed && text[start] == '-' then -magnitude else magnitude;
      if -INT_LIMIT <= value < INT_LIMIT then Some(value) else None
  }

  lemma StoiOfDecimal(n: nat)
    requires n < INT_LIMIT
    ensures Stoi(Decimal(n)) == Some(n)
  {
    var digits := Decimal(n);
    DecimalRoundTrip(n);
    assert !IsSpace(digits[0]) && SkipWs(digits, 0) == 0;
    AllDigits(digits, 0);
    assert digits[0..|digits|] == digits;
  }

  lemma {:induction false} AllDigits(digits: string, pos: nat)
    requires pos <= |digits| && forall i :: 0 <= i < |digits| ==> IsDigit(digits[i])
    ensures DigitsEnd(digits, pos) == |digits|
    decreases |digits| - pos
  {
    if pos < |digits| {
      AllDigits(digits, pos + 1);
    }
  }

  function Record(iterations: nat, salt: seq<Byte>, key: seq<Byte>): string {
    SCHEME + ['$'] + (Decimal(iterations) + ['$'] + (ToHex(salt) + ['$'] + ToHex(key)))
  }

  /** The record, or the empty string when the key cannot be derived. */
  function MakeHash(kdf: Kdf, password: string, iterations: nat, salt: seq<Byte>): string {
    var key := kdf(password, iterations, salt);
    if key.None? then "" else Record(iterations, salt, key.value)
  }

  predicate Verify(kdf: Kdf, password: string, stored: string) {
    var parts := Split(stored, '$');
    if |parts| != 4 || parts[0] != SCHEME then false
    else
      var iterations := Stoi(parts[1]);
      if iterations.None? || iterations.value <= 0 then false
      else
        var salt := FromHex(parts[2]);
        if salt == [] then false
        else
          var recalculated := MakeHash(kdf, password, iterations.value, salt);
          recalculated != "" && recalculated == stored
  }

  lemma NoDollar(iterations: nat, bytes: seq<Byte>)
    ensures '$' !in SCHEME && '$' !in Decimal(iterations) && '$' !in ToHex(bytes)
  {
    var digits, hex := Decimal(iterations), ToHex(bytes);
    assert forall i :: 0 <= i < |digits| ==> digits[i] != '$';
    assert forall i :: 0 <= i < |hex| ==> HexValue(hex[i]).Some? && hex[i] != '$';
  }

  lemma RecordSplits(iterations: nat, salt: seq<Byte>, key: seq<Byte>)
    requires key != []
    ensures Split(Record(iterations, salt, key), '$') == [SCHEME, Decimal(iterations), ToHex(salt), ToHex(key)]
  {
    hide SCHEME, ToHex, Decimal, Split, Until;
    NoDollar(iterations, salt);
    NoDollar(iterations, key);
    SplitLast(ToHex(key), '$');
    SplitPart(ToHex(salt), '$', ToHex(key));
    SplitPart(Decimal(iterations), '$', ToHex(salt) + ['$'] + ToHex(key));
    SplitPart(SCHEME, '$', Decimal(iterations) + ['$'] + (ToHex(salt) + ['$'] + ToHex(key)));
  }

  /** A record says what it was made from. */
  lemma RecordIsInjective(n: nat, salt: seq<Byte>, key: seq<Byte>, n': nat, salt': seq<Byte>, key': seq<Byte>)
    requires key != [] && key' != [] && Record(n, salt, key) == Record(n', salt', key')
    ensures n == n' && salt == salt' && key == key'
  {
    hide Record;
    RecordSplits(n, salt, key);
    RecordSplits(n', salt', key');
    var parts, parts' := Split(Record(n, salt, key), '$'), Split(Record(n', salt', key'), '$');
    assert parts[1] == parts'[1] && parts[2] == parts'[2] && parts[3] == parts'[3];
    DecimalRoundTrip(n);
    DecimalRoundTrip(n');
    FromHexUndoesToHex(salt);
    FromHexUndoesToHex(salt');
    FromHexUndoesToHex(key);
    FromHexUndoesToHex(key');
  }

  /** Which passwords a stored record accepts: with a salt and a derivable key, exactly those that derive
      the same key, so always the password it was made from; otherwise none. */
  lemma RecordRoundTrip(kdf: Kdf, password: string, iterations: nat, salt: seq<Byte>, attempt: string)
    requires DerivesKeys(kdf) && 0 < iterations < INT_LIMIT
    ensures Verify(kdf, attempt, MakeHash(kdf, password, iterations, salt)) <==>
            && salt != [] && kdf(password, iterations, salt).Some?
            && kdf(attempt, iterations, salt) == kdf(password, iterations, salt)
  {
    hide Record, SCHEME, DecimalValue, FromHex, ToHex, Stoi;
    var key := kdf(password, iterations, salt);
    if key.Some? {
      RecordSplits(iterations, salt, key.value);
      StoiOfDecimal(iterations);
      FromHexUndoesToHex(salt);
      var other := kdf(attempt, iterations, salt);
      if other.Some? {
        RecordNotEmpty(iterations, salt, other.value);
        if Record(iterations, salt, other.value) == Record(iterations, salt, key.value) {
          RecordIsInjective(iterations, salt, other.value, iterations, salt, key.value);
        }
      }
    }
  }

  lemma RecordNotEmpty(iterations: nat, salt: seq<Byte>, key: seq<Byte>)
    ensures Record(iterations, salt, key) != ""
  {
  }

  ghost predicate MadeFrom(kdf: Kdf, password: string, stored: string, iterations: nat, salt: seq<Byte>) {
    0 < iterations < INT_LIMIT && salt != [] && kdf(password, iterations, salt).Some? &&
    stored == MakeHash(kdf, password, iterations, salt)
  }

  /** A stored text is accepted exactly when it is the canonical record of the password for some
      iteration count and salt; every other spelling is refused. */
  lemma VerifyIsExact(kdf: Kdf, password: string, stored: string)
    requires DerivesKeys(kdf)
    ensures Verify(kdf, password, stored) <==>
            exists iterations, salt :: MadeFrom(kdf, password, stored, iterations, salt)
  {
    if Verify(kdf, password, stored) {
      var parts := Split(stored, '$');
      assert MadeFrom(kdf, password, stored, Stoi(parts[1]).value, FromHex(parts[2]));
    }
    if exists iterations, salt :: MadeFrom(kdf, password, stored, iterations, salt) {
      var iterations, salt :| MadeFrom(kdf, password, stored, iterations, salt);
      RecordRoundTrip(kdf, password, iterations, salt, password);
    }
  }

  const DEFAULT_ITERATIONS: nat := 100000

  /** The salt comes from the random generator, which may fail. */
  function HashPassword(kdf: Kdf, password: string, salt: Option<seq<Byte>>): string {
    if salt.None? then "" else MakeHash(kdf, password, DEFAULT_ITERATIONS, salt.value)
  }
}
