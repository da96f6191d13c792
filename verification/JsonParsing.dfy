/** What the JSON parser computes (json11.cpp:306-673), as functions of the text and the
    position of the cursor.  The bounds in the contracts are what makes them terminate: the
    cursor stays within the text, and every value takes at least one byte.  */
module JsonParsing {
  import opened Basics
  import opened Decimals
  import opened JsonText

  const MAX_DEPTH := 200

  datatype Error =
    | UnexpectedEnd
    | EndInString
    | Unescaped(c: char)
    | BadEscape
    | InvalidEscape(c: char)
    | LeadingZero
    | InvalidNumber(c: char)
    | NoFraction
    | NoExponent
    | Expected(word: Bytes)
    | TooDeep
    | NoKey(c: char)
    | NoColon(c: char)
    | NoCommaInObject(c: char)
    | NoCommaInList(c: char)
    | NoValue(c: char)
    | Trailing(c: char)

  datatype Result<+T> = Ok(value: T, next: nat) | Fail(error: Error)

  // ---------------------------------------------------------------- tokens

  /** A text ends in a zero byte that is not part of it. */
  function CharAt(s: Bytes, i: nat): char { if i < |s| then s[i] else 0 as char }

  predicate IsSpace(c: char) { c == ' ' || c == '\r' || c == '\n' || c == '\t' }

  function SkipSpace(s: Bytes, i: nat): (k: nat)
    requires i <= |s|
    ensures i <= k <= |s|
    decreases |s| - i
  {
    if IsSpace(CharAt(s, i)) then SkipSpace(s, i + 1) else i
  }

  function NextToken(s: Bytes, i: nat): (r: Result<char>)
    requires i <= |s|
    ensures r.Ok? ==> i < r.next <= |s| && s[r.next - 1] == r.value
  {
    var k := SkipSpace(s, i);
    if k == |s| then Fail(UnexpectedEnd) else Ok(s[k], k + 1)
  }

  // ---------------------------------------------------------------- strings

  const NO_CODE_POINT := -1

  /** The UTF-8 encoding of a code point; nothing for a negative one. */
  function Utf8(pt: int): Bytes
    requires pt <= 0x10ffff
  {
    if pt < 0 then []
    else if pt < 0x80 then [pt as char]
    else if pt < 0x800 then [(0xc0 + pt / 0x40) as char, (0x80 + pt % 0x40) as char]
    else if pt < 0x10000 then
      [(0xe0 + pt / 0x1000) as char, (0x80 + pt / 0x40 % 0x40) as char, (0x80 + pt % 0x40) as char]
    else
      [(0xf0 + pt / 0x40000) as char, (0x80 + pt / 0x1000 % 0x40) as char,
       (0x80 + pt / 0x40 % 0x40) as char, (0x80 + pt % 0x40) as char]
  }

  predicate IsHex(c: char) { 'a' <= c <= 'f' || 'A' <= c <= 'F' || IsDigit(c) }

  function HexValue(c: char): (d: nat)
    requires IsHex(c)
    ensures d < 16
  {
    if IsDigit(c) then (c as int - '0' as int)
    else if 'a' <= c <= 'f' then 10 + (c as int - 'a' as int)
    else 10 + (c as int - 'A' as int)
  }

  /** The four hex digits of a `\u` escape. */
  function Hex4(s: Bytes, i: nat): (r: int)
    ensures r <= 0xffff
    ensures r >= 0 ==> i + 4 <= |s|
  {
    var a, b, c, d := CharAt(s, i), CharAt(s, i + 1), CharAt(s, i + 2), CharAt(s, i + 3);
    if IsHex(a) && IsHex(b) && IsHex(c) && IsHex(d) then
      HexValue(a) * 0x1000 + HexValue(b) * 0x100 + HexValue(c) * 0x10 + HexValue(d)
    else -1
  }

  predicate IsHighSurrogate(pt: int) { 0xd800 <= pt <= 0xdbff }

  predicate IsLowSurrogate(pt: int) { 0xdc00 <= pt <= 0xdfff }

  /** The byte a simple escape stands for; a negative number if there is none. */
  function SimpleEscape(c: char): (r: int)
    ensures r < 256
  {
    if c == 'b' then 8
    else if c == 'f' then 12
    else if c == 'n' then '\n' as int
    else if c == 'r' then '\r' as int
    else if c == 't' then '\t' as int
    else if c == '\"' || c == '\\' || c == '/' then c as int
    else -1
  }

  /** The rest of a string from position i: `out` has been read, and `last` is a code point
      whose encoding is delayed because it may be the first half of a surrogate pair. */
  function ParseString(s: Bytes, i: nat, out: Bytes, last: int): (r: Result<Bytes>)
    requires i <= |s| && NO_CODE_POINT <= last <= 0xffff
    ensures r.Ok? ==> i < r.next <= |s|
    decreases |s| - i
  {
    if i == |s| then Fail(EndInString)
    else if s[i] == '\"' then Ok(out + Utf8(last), i + 1)
    else if s[i] as int <= 0x1f then Fail(Unescaped(s[i]))
    else if s[i] != '\\' then ParseString(s, i + 1, out + Utf8(last) + [s[i]], NO_CODE_POINT)
    else if i + 1 == |s| then Fail(EndInString)
    else if s[i + 1] == 'u' then
      var pt := Hex4(s, i + 2);
      if pt < 0 then Fail(BadEscape)
      else if IsHighSurrogate(last) && IsLowSurrogate(pt) then
        ParseString(s, i + 6, out + Utf8((last - 0xd800) * 0x400 + (pt - 0xdc00) + 0x10000), NO_CODE_POINT)
      else ParseString(s, i + 6, out + Utf8(last), pt)
    else
      var c := SimpleEscape(s[i + 1]);
      if c < 0 then Fail(InvalidEscape(s[i + 1]))
      else ParseString(s, i + 2, out + Utf8(last) + [c as char], NO_CODE_POINT)
  }

  // ---------------------------------------------------------------- numbers

  function SkipDigits(s: Bytes, i: nat): (k: nat)
    requires i <= |s|
    ensures i <= k <= |s|
    decreases |s| - i
  {
    if IsDigit(CharAt(s, i)) then SkipDigits(s, i + 1) else i
  }

  /** `atoi` on the digits lo..hi. */
  function DigitsValue(s: Bytes, lo: nat, hi: nat): int
    requires lo <= hi <= |s|
    decreases hi
  {
    if lo == hi then 0 else 10 * DigitsValue(s, lo, hi - 1) + (s[hi - 1] as int - '0' as int)
  }

  const DIGITS10 := 9
  const EXACT_DOUBLE := 0x20_0000_0000_0000  // 2^53

  /** The integer part: a single zero, or digits that do not start with one. */
  function ParseIntegerPart(s: Bytes, i: nat): (r: Result<()>)
    requires i <= |s|
    ensures r.Ok? ==> i < r.next <= |s|
  {
    if CharAt(s, i) == '0' then
      if IsDigit(CharAt(s, i + 1)) then Fail(LeadingZero) else Ok((), i + 1)
    else if IsDigit(CharAt(s, i)) then Ok((), SkipDigits(s, i + 1))
    else Fail(InvalidNumber(CharAt(s, i)))
  }

  function ParseFraction(s: Bytes, i: nat): (r: Result<()>)
    requires i <= |s|
    ensures r.Ok? ==> i <= r.next <= |s|
  {
    if CharAt(s, i) != '.' then Ok((), i)
    else if !IsDigit(CharAt(s, i + 1)) then Fail(NoFraction)
    else Ok((), SkipDigits(s, i + 1))
  }

  function ParseExponent(s: Bytes, i: nat): (r: Result<()>)
    requires i <= |s|
    ensures r.Ok? ==> i <= r.next <= |s|
  {
    if CharAt(s, i) != 'e' && CharAt(s, i) != 'E' then Ok((), i)
    else
      var k := if CharAt(s, i + 1) == '+' || CharAt(s, i + 1) == '-' then i + 2 else i + 1;
      if !IsDigit(CharAt(s, k)) then Fail(NoExponent) else Ok((), SkipDigits(s, k))
  }

  function ParseNumber(s: Bytes, i: nat): (r: Result<Json>)
    requires i <= |s|
    ensures r.Ok? ==> i < r.next <= |s|
  {
    var first := if CharAt(s, i) == '-' then i + 1 else i;
    match ParseIntegerPart(s, first)
    case Fail(e) => Fail(e)
    case Ok(_, k) =>
      var n := if first > i then -DigitsValue(s, first, k) else DigitsValue(s, first, k);
      var c := CharAt(s, k);
      if c != '.' && c != 'e' && c != 'E' then
        Ok(if k - i <= DIGITS10 || -EXACT_DOUBLE <= n <= EXACT_DOUBLE then Number(n) else Double(s[i..k]), k)
      else
        match ParseFraction(s, k)
        case Fail(e) => Fail(e)
        case Ok(_, k') =>
          match ParseExponent(s, k')
          case Fail(e) => Fail(e)
          case Ok(_, k'') => Ok(Double(s[i..k'']), k'')
  }

  // ---------------------------------------------------------------- values

  function ExpectWord(s: Bytes, i: nat, word: Bytes, v: Json): (r: Result<Json>)
    requires i < |s| && word != []
    ensures r.Ok? ==> i < r.next <= |s|
  {
    if i + |word| <= |s| && s[i..i + |word|] == word then Ok(v, i + |word|) else Fail(Expected(word))
  }

  /** A value other than a list or an object, whose first character c stands at k - 1. */
  function ParseScalar(s: Bytes, k: nat, c: char): (r: Result<Json>)
    requires 0 < k <= |s|
    ensures r.Ok? ==> k - 1 < r.next <= |s|
  {
    if c == '-' || IsDigit(c) then ParseNumber(s, k - 1)
    else if c == 't' then ExpectWord(s, k - 1, "true", Bool(true))
    else if c == 'f' then ExpectWord(s, k - 1, "false", Bool(false))
    else if c == 'n' then ExpectWord(s, k - 1, "null", Null)
    else if c == '\"' then
      match ParseString(s, k, [], NO_CODE_POINT)
      case Fail(e) => Fail(e)
      case Ok(text, k') => Ok(String(text), k')
    else Fail(NoValue(c))
  }

  // ---------------------------------------------------------------- lists and objects

  /** What the parser of brackets is built on: the next token, the rest of a string, a
      scalar whose first character stands before position k, and storing a member. */
  datatype Lexer = Lexer(
    token: (Bytes, nat) -> Result<char>,
    text: (Bytes, nat) -> Result<Bytes>,
    scalar: (Bytes, nat, char) -> Result<Json>,
    put: (seq<Member>, Member) -> seq<Member>)
  {
    ghost predicate Advances() {
      && (forall s: Bytes, i: nat :: token(s, i).Ok? ==> i < token(s, i).next <= |s|)
      && (forall s: Bytes, i: nat :: text(s, i).Ok? ==> i < text(s, i).next <= |s|)
      && (forall s: Bytes, k: nat, c: char :: scalar(s, k, c).Ok? ==> k <= scalar(s, k, c).next <= |s|)
    }
  }

  function TokenAt(s: Bytes, i: nat): Result<char> { if i <= |s| then NextToken(s, i) else Fail(UnexpectedEnd) }

  function TextAt(s: Bytes, i: nat): Result<Bytes> {
    if i <= |s| then ParseString(s, i, [], NO_CODE_POINT) else Fail(UnexpectedEnd)
  }

  function ScalarAt(s: Bytes, k: nat, c: char): Result<Json> {
    if 0 < k <= |s| then ParseScalar(s, k, c) else Fail(UnexpectedEnd)
  }

  const JSON := Lexer(
    (s: Bytes, i: nat) => TokenAt(s, i),
    (s: Bytes, i: nat) => TextAt(s, i),
    (s: Bytes, k: nat, c: char) => ScalarAt(s, k, c),
    (data: seq<Member>, m: Member) => Insert(data, m))

  lemma JsonAdvances()
    ensures JSON.Advances()
  {
  }

  /** One value, from position i, inside `depth` brackets. */
  function ParseValue(lex: Lexer, s: Bytes, i: nat, depth: nat): (r: Result<Json>)
    requires lex.Advances() && i <= |s|
    ensures r.Ok? ==> i < r.next <= |s|
    decreases |s| - i, 0
  {
    if depth > MAX_DEPTH then Fail(TooDeep)
    else
      match lex.token(s, i)
      case Fail(e) => Fail(e)
      case Ok(c, k) =>
        if c == '{' then ParseObject(lex, s, k, depth)
        else if c == '[' then ParseList(lex, s, k, depth)
        else lex.scalar(s, k, c)
  }

  function ParseObject(lex: Lexer, s: Bytes, k: nat, depth: nat): (r: Result<Json>)
    requires lex.Advances() && k <= |s|
    ensures r.Ok? ==> k < r.next <= |s|
    decreases |s| - k, 2
  {
    match lex.token(s, k)
    case Fail(e) => Fail(e)
    case Ok(c, k') => if c == '}' then Ok(Object([]), k') else ParseMembers(lex, s, k', c, depth, [])
  }

  function ParseList(lex: Lexer, s: Bytes, k: nat, depth: nat): (r: Result<Json>)
    requires lex.Advances() && k <= |s|
    ensures r.Ok? ==> k < r.next <= |s|
    decreases |s| - k, 2
  {
    match lex.token(s, k)
    case Fail(e) => Fail(e)
    case Ok(c, k') => if c == ']' then Ok(Array([]), k') else ParseItems(lex, s, k' - 1, depth, [])
  }

  /** The members of an object from one whose first character c has just been read. */
  function ParseMembers(lex: Lexer, s: Bytes, i: nat, c: char, depth: nat, data: seq<Member>): (r: Result<Json>)
    requires lex.Advances() && i <= |s|
    ensures r.Ok? ==> i < r.next <= |s|
    decreases |s| - i, 1
  {
    if c != '\"' then Fail(NoKey(c))
    else
      match lex.text(s, i)
      case Fail(e) => Fail(e)
      case Ok(key, k) =>
        match lex.token(s, k)
        case Fail(e) => Fail(e)
        case Ok(colon, k1) =>
          if colon != ':' then Fail(NoColon(colon))
          else
            match ParseValue(lex, s, k1, depth + 1)
            case Fail(e) => Fail(e)
            case Ok(v, k2) =>
              var data' := lex.put(data, Member(key, v));
              match lex.token(s, k2)
              case Fail(e) => Fail(e)
              case Ok(sep, k3) =>
                if sep == '}' then Ok(Object(data'), k3)
                else if sep != ',' then Fail(NoCommaInObject(sep))
                else
                  match lex.token(s, k3)
                  case Fail(e) => Fail(e)
                  case Ok(c', k4) => ParseMembers(lex, s, k4, c', depth, data')
  }

  /** The items of a list, from the first character of one. */
  function ParseItems(lex: Lexer, s: Bytes, i: nat, depth: nat, data: seq<Json>): (r: Result<Json>)
    requires lex.Advances() && i <= |s|
    ensures r.Ok? ==> i < r.next <= |s|
    decreases |s| - i, 1
  {
    match ParseValue(lex, s, i, depth + 1)
    case Fail(e) => Fail(e)
    case Ok(v, k) =>
      match lex.token(s, k)
      case Fail(e) => Fail(e)
      case Ok(sep, k1) =>
        if sep == ']' then Ok(Array(data + [v]), k1)
        else if sep != ',' then Fail(NoCommaInList(sep))
        else
          match lex.token(s, k1)
          case Fail(e) => Fail(e)
          case Ok(_, k2) => ParseItems(lex, s, k2 - 1, depth, data + [v])
  }

  /** `Json::parse`: one value and nothing but space after it. */
  function Parse(s: Bytes): Result<Json> {
    JsonAdvances();
    match ParseValue(JSON, s, 0, 0)
    case Fail(e) => Fail(e)
    case Ok(v, k) =>
      var end := SkipSpace(s, k);
      if end != |s| then Fail(Trailing(s[end])) else Ok(v, end)
  }

  /** `Json::parse_multi`: the values up to the end of the text or the first error. */
  function ParseAll(s: Bytes, i: nat): (seq<Json>, Option<Error>)
    requires i <= |s|
    decreases |s| - i
  {
    if i == |s| then ([], None)
    else
      JsonAdvances();
      match ParseValue(JSON, s, i, 0)
      case Fail(e) => ([], Some(e))
      case Ok(v, k) =>
        var (vs, err) := ParseAll(s, SkipSpace(s, k));
        ([v] + vs, err)
  }
}
