/** Strings of a JSON text as RFC 8259 (section 7) reads them, and UTF-8 as RFC 3629 (section 3)
    defines it: what the string parser accepts, and what it makes of it (json11.cpp:379-485).  */
module JsonStrings {
  import opened Basics
  import opened Decimals
  import opened JsonText
  import opened JsonParsing
  import opened JsonRoundTrip

  // ---------------------------------------------------------------- UTF-8

  predicate Continues(c: char) { 0x80 <= c as int <= 0xbf }

  function SixBits(c: char): int { c as int - 0x80 }

  /** Decoding one code point: its value and its length. */
  function Decode(b: Bytes): Option<(int, nat)> {
    if b == [] then None
    else
      var c := b[0] as int;
      if c <= 0x7f then Some((c, 1))
      else if 0xc2 <= c <= 0xdf && |b| >= 2 && Continues(b[1]) then Some(((c - 0xc0) * 0x40 + SixBits(b[1]), 2))
      else if 0xe0 <= c <= 0xef && |b| >= 3 && Continues(b[1]) && Continues(b[2]) then
        Some(((c - 0xe0) * 0x1000 + SixBits(b[1]) * 0x40 + SixBits(b[2]), 3))
      else if 0xf0 <= c <= 0xf4 && |b| >= 4 && Continues(b[1]) && Continues(b[2]) && Continues(b[3]) then
        Some(((c - 0xf0) * 0x40000 + SixBits(b[1]) * 0x1000 + SixBits(b[2]) * 0x40 + SixBits(b[3]), 4))
      else None
  }

  /** The six-bit groups of a code point. */
  lemma Groups(pt: nat)
    ensures pt == pt / 0x40 * 0x40 + pt % 0x40
    ensures pt / 0x40 == pt / 0x1000 * 0x40 + pt / 0x40 % 0x40
    ensures pt / 0x1000 == pt / 0x40000 * 0x40 + pt / 0x1000 % 0x40
  {
  }

  lemma ShortDecodes(pt: nat, rest: Bytes)
    requires pt <= 0x7ff
    ensures Decode(Utf8(pt) + rest) == Some((pt, if pt <= 0x7f then 1 else 2))
  {
    Groups(pt);
    var b := Utf8(pt) + rest;
    assert b[0] == Utf8(pt)[0];
    if pt > 0x7f { assert b[1] == Utf8(pt)[1]; }
  }

  lemma ThreeDecodes(pt: nat, rest: Bytes)
    requires 0x800 <= pt <= 0xffff
    ensures Decode(Utf8(pt) + rest) == Some((pt, 3))
  {
    Groups(pt);
    var b := Utf8(pt) + rest;
    assert b[0] == (0xe0 + pt / 0x1000) as char;
    assert b[1] == (0x80 + pt / 0x40 % 0x40) as char;
    assert b[2] == (0x80 + pt % 0x40) as char;
  }

  lemma FourDecodes(pt: nat, rest: Bytes)
    requires 0x10000 <= pt <= 0x10ffff
    ensures Decode(Utf8(pt) + rest) == Some((pt, 4))
  {
    Groups(pt);
    var b := Utf8(pt) + rest;
    assert b[0] == (0xf0 + pt / 0x40000) as char;
    assert b[1] == (0x80 + pt / 0x1000 % 0x40) as char;
    assert b[2] == (0x80 + pt / 0x40 % 0x40) as char;
    assert b[3] == (0x80 + pt % 0x40) as char;
  }

  /** Every code point is encoded in the number of bytes the standard gives it, all but the first
      continuation bytes, and decodes to itself whatever follows. */
  lemma Utf8Decodes(pt: nat, rest: Bytes)
    requires pt <= 0x10ffff
    ensures |Utf8(pt)| == if pt <= 0x7f then 1 else if pt <= 0x7ff then 2 else if pt <= 0xffff then 3 else 4
    ensures forall k :: 0 < k < |Utf8(pt)| ==> Continues(Utf8(pt)[k])
    ensures Decode(Utf8(pt) + rest) == Some((pt, |Utf8(pt)|))
  {
    if pt <= 0x7ff { ShortDecodes(pt, rest); } else if pt <= 0xffff { ThreeDecodes(pt, rest); } else { FourDecodes(pt, rest); }
  }

  // ---------------------------------------------------------------- the units of a string

  /** A byte that stands for itself; a backslash and one letter; a backslash, a `u` and the four
      hexadecimal digits of a code point. */
  datatype Unit = Raw(c: char) | Simple(letter: char) | Code(digits: Bytes, pt: int)

  /** The letters of RFC 8259 and the bytes they stand for. */
  const LETTERS: map<char, int> := map[
    '\"' := 0x22, '\\' := 0x5c, '/' := 0x2f, 'b' := 0x08, 'f' := 0x0c, 'n' := 0x0a, 'r' := 0x0d, 't' := 0x09]

  function Letter(l: char): Bytes { if l in LETTERS then [LETTERS[l] as char] else [] }

  const HEX_DIGITS: string := "0123456789abcdef"
  const HEX_CAPITALS: string := "0123456789ABCDEF"

  ghost predicate HasValue(c: char, d: int) { 0 <= d < 16 && (HEX_DIGITS[d] == c || HEX_CAPITALS[d] == c) }

  ghost predicate IsNumeral(h: Bytes, pt: int) {
    && |h| == 4 && 0 <= pt <= 0xffff
    && HasValue(h[0], pt / 0x1000) && HasValue(h[1], pt / 0x100 % 0x10)
    && HasValue(h[2], pt / 0x10 % 0x10) && HasValue(h[3], pt % 0x10)
  }

  ghost predicate IsUnit(u: Unit) {
    match u
    case Raw(c) => c as int >= 0x20 && c != '\"' && c != '\\'
    case Simple(l) => l in LETTERS
    case Code(h, pt) => IsNumeral(h, pt)
  }

  function UnitText(u: Unit): Bytes {
    match u
    case Raw(c) => [c]
    case Simple(l) => ['\\', l]
    case Code(h, _) => ['\\', 'u'] + h
  }

  function UnitsText(us: seq<Unit>): Bytes {
    if us == [] then [] else UnitText(us[0]) + UnitsText(us[1..])
  }

  ghost predicate AllUnits(us: seq<Unit>) {
    us == [] || (IsUnit(us[0]) && AllUnits(us[1..]))
  }

  predicate IsPair(us: seq<Unit>) {
    && |us| >= 2 && us[0].Code? && us[1].Code?
    && 0xd800 <= us[0].pt <= 0xdbff && 0xdc00 <= us[1].pt <= 0xdfff
  }

  /** How a code point is written; nothing stands for no code point. */
  type Encoding = enc: int -> Bytes | enc(NO_CODE_POINT) == [] witness (pt: int) => []

  function Encoded(pt: int): Bytes { if pt <= 0x10ffff then Utf8(pt) else [] }

  const UTF8: Encoding := (pt: int) => Encoded(pt)

  function UnitBytes(enc: Encoding, u: Unit): Bytes {
    match u
    case Raw(c) => [c]
    case Simple(l) => Letter(l)
    case Code(_, pt) => enc(pt)
  }

  /** What a string stands for: the two halves of a surrogate pair are one code point. */
  function Meaning(enc: Encoding, us: seq<Unit>): Bytes
    decreases |us|
  {
    if us == [] then []
    else if IsPair(us) then enc(0x10000 + (us[0].pt - 0xd800) * 0x400 + (us[1].pt - 0xdc00)) + Meaning(enc, us[2..])
    else UnitBytes(enc, us[0]) + Meaning(enc, us[1..])
  }

  /** A string of RFC 8259 stands at i, behind its opening quote, and ends at k. */
  ghost predicate StringAt(s: Bytes, i: nat, k: nat, v: Bytes) {
    exists us :: AllUnits(us) && At(s, i, UnitsText(us) + "\"") && k == i + |UnitsText(us)| + 1 && v == Meaning(UTF8, us)
  }

  // ---------------------------------------------------------------- delayed code points

  /** A digit has the value of its place among the sixteen, in either case. */
  lemma HexValueIff(c: char, d: int)
    ensures IsHex(c) && HexValue(c) == d <==> HasValue(c, d)
  {
  }

  /** Four digits to the base sixteen. */
  predicate DigitsOf(a: int, b: int, c: int, d: int, pt: int) {
    a == pt / 0x1000 && b == pt / 0x100 % 0x10 && c == pt / 0x10 % 0x10 && d == pt % 0x10
  }

  lemma SumOfDigits(a: int, b: int, c: int, d: int, pt: int)
    requires 0 <= pt <= 0xffff && DigitsOf(a, b, c, d, pt)
    ensures pt == a * 0x1000 + b * 0x100 + c * 0x10 + d
  {
    LastDigit(pt);
    LastDigit(pt / 0x10);
    LastDigit(pt / 0x100);
  }

  lemma LastDigit(x: nat)
    ensures x == x / 0x10 * 0x10 + x % 0x10 && x / 0x100 == x / 0x10 / 0x10 && x / 0x1000 == x / 0x10 / 0x100
  {
  }

  lemma DigitsOfSum(a: int, b: int, c: int, d: int)
    requires 0 <= a < 16 && 0 <= b < 16 && 0 <= c < 16 && 0 <= d < 16
    ensures DigitsOf(a, b, c, d, a * 0x1000 + b * 0x100 + c * 0x10 + d)
  {
    var pt := a * 0x1000 + b * 0x100 + c * 0x10 + d;
    assert pt / 0x10 == a * 0x100 + b * 0x10 + c;
    assert pt / 0x100 == a * 0x10 + b;
  }

  lemma Hex4Iff(s: Bytes, i: nat, pt: int)
    requires pt >= 0
    ensures Hex4(s, i) == pt <==> i + 4 <= |s| && IsNumeral(s[i..i + 4], pt)
  {
    if i + 4 <= |s| {
      var h := s[i..i + 4];
      HexValueIff(h[0], pt / 0x1000);
      HexValueIff(h[1], pt / 0x100 % 0x10);
      HexValueIff(h[2], pt / 0x10 % 0x10);
      HexValueIff(h[3], pt % 0x10);
      if IsHex(h[0]) && IsHex(h[1]) && IsHex(h[2]) && IsHex(h[3]) {
        var a, b, c, d := HexValue(h[0]), HexValue(h[1]), HexValue(h[2]), HexValue(h[3]);
        DigitsOfSum(a, b, c, d);
        if pt <= 0xffff && DigitsOf(a, b, c, d, pt) { SumOfDigits(a, b, c, d, pt); }
      }
    }
  }

  lemma LettersAreEscapes(l: char)
    ensures l in LETTERS <==> SimpleEscape(l) >= 0
    ensures l in LETTERS ==> SimpleEscape(l) == LETTERS[l] && l != 'u'
  {
  }

  predicate Pairs(last: int, u: Unit) { u.Code? && 0xd800 <= last <= 0xdbff && 0xdc00 <= u.pt <= 0xdfff }

  function PairPoint(last: int, pt: int): int { (last - 0xd800) * 0x400 + (pt - 0xdc00) + 0x10000 }

  /** What a unit adds at once when the code point `last` is delayed, and what is delayed then. */
  function Flushed(enc: Encoding, last: int, u: Unit): Bytes {
    if Pairs(last, u) then enc(PairPoint(last, u.pt))
    else if u.Code? then enc(last)
    else enc(last) + UnitBytes(enc, u)
  }

  function LastAfter(last: int, u: Unit): int {
    if u.Code? && !Pairs(last, u) then u.pt else NO_CODE_POINT
  }

  function Delayed(enc: Encoding, last: int, us: seq<Unit>): Bytes
    decreases |us|
  {
    if us == [] then enc(last) else Flushed(enc, last, us[0]) + Delayed(enc, LastAfter(last, us[0]), us[1..])
  }

  /** Delaying code points reads surrogate pairs as pairs. */
  lemma {:induction false} DelayedIsMeaning(enc: Encoding, us: seq<Unit>)
    requires AllUnits(us)
    ensures Delayed(enc, NO_CODE_POINT, us) == Meaning(enc, us)
    decreases |us|, 1
  {
    if us != [] {
      if us[0].Code? {
        DelayedCode(enc, us);
        assert [] + Delayed(enc, us[0].pt, us[1..]) == Delayed(enc, us[0].pt, us[1..]);
      } else {
        DelayedIsMeaning(enc, us[1..]);
        assert [] + UnitBytes(enc, us[0]) == UnitBytes(enc, us[0]);
      }
    }
  }

  lemma {:induction false} DelayedCode(enc: Encoding, us: seq<Unit>)
    requires us != [] && us[0].Code? && AllUnits(us)
    ensures Delayed(enc, us[0].pt, us[1..]) == Meaning(enc, us)
    decreases |us|, 0
  {
    if |us| == 1 {
      assert Meaning(enc, us) == enc(us[0].pt) + [];
    } else if IsPair(us) {
      DelayedIsMeaning(enc, us[2..]);
      CodeThenPair(enc, us);
    } else if us[1].Code? {
      DelayedCode(enc, us[1..]);
      CodeThenCode(enc, us);
    } else {
      DelayedIsMeaning(enc, us[2..]);
      CodeThenPlain(enc, us);
    }
  }

  lemma CodeThenPair(enc: Encoding, us: seq<Unit>)
    requires IsPair(us)
    ensures Delayed(enc, us[0].pt, us[1..]) == enc(PairPoint(us[0].pt, us[1].pt)) + Delayed(enc, NO_CODE_POINT, us[2..])
    ensures Meaning(enc, us) == enc(PairPoint(us[0].pt, us[1].pt)) + Meaning(enc, us[2..])
  {
    assert us[1..][0] == us[1] && us[1..][1..] == us[2..];
  }

  lemma CodeThenPlain(enc: Encoding, us: seq<Unit>)
    requires |us| >= 2 && us[0].Code? && !us[1].Code?
    ensures Delayed(enc, us[0].pt, us[1..]) == enc(us[0].pt) + (UnitBytes(enc, us[1]) + Delayed(enc, NO_CODE_POINT, us[2..]))
    ensures Meaning(enc, us) == enc(us[0].pt) + (UnitBytes(enc, us[1]) + Meaning(enc, us[2..]))
  {
    assert us[1..][0] == us[1] && us[1..][1..] == us[2..];
    Assoc(enc(us[0].pt), UnitBytes(enc, us[1]), Delayed(enc, NO_CODE_POINT, us[2..]));
    assert Meaning(enc, us[1..]) == UnitBytes(enc, us[1]) + Meaning(enc, us[2..]);
  }

  lemma CodeThenCode(enc: Encoding, us: seq<Unit>)
    requires |us| >= 2 && us[0].Code? && us[1].Code? && !IsPair(us)
    ensures Delayed(enc, us[0].pt, us[1..]) == enc(us[0].pt) + Delayed(enc, us[1].pt, us[2..])
    ensures Meaning(enc, us) == enc(us[0].pt) + Meaning(enc, us[1..])
  {
    assert us[1..][0] == us[1] && us[1..][1..] == us[2..];
  }

  // ---------------------------------------------------------------- readers of units

  /** A reader of the rest of a string in one text. */
  type Reader = (nat, Bytes, int) -> Result<Bytes>

  predicate IsPoint(last: int) { NO_CODE_POINT <= last <= 0xffff }

  /** One unit is passed over, and a closing quote ends the string. */
  ghost predicate PassesUnit(read: Reader, enc: Encoding, s: Bytes, i: nat, out: Bytes, last: int, u: Unit) {
    IsUnit(u) && At(s, i, UnitText(u)) && IsPoint(last) ==>
      read(i, out, last) == read(i + |UnitText(u)|, out + Flushed(enc, last, u), LastAfter(last, u))
  }

  ghost predicate EndsAtQuote(read: Reader, enc: Encoding, s: Bytes, i: nat, out: Bytes, last: int) {
    i < |s| && s[i] == '\"' && IsPoint(last) ==> read(i, out, last) == Ok(out + enc(last), i + 1)
  }

  /** Whatever starts with neither is refused. */
  ghost predicate RefusesOthers(read: Reader, s: Bytes, i: nat, out: Bytes, last: int) {
    IsPoint(last) && read(i, out, last).Ok? ==>
      i < |s| && (s[i] == '\"' || exists u :: IsUnit(u) && At(s, i, UnitText(u)))
  }

  ghost predicate ReadsUnits(read: Reader, enc: Encoding, s: Bytes) {
    && (forall i: nat, out, last, u :: PassesUnit(read, enc, s, i, out, last, u))
    && (forall i: nat, out, last :: EndsAtQuote(read, enc, s, i, out, last))
    && (forall i: nat, out, last :: RefusesOthers(read, s, i, out, last))
  }

  lemma SplitUnits(s: Bytes, i: nat, us: seq<Unit>)
    requires us != [] && At(s, i, UnitsText(us) + "\"")
    ensures At(s, i, UnitText(us[0])) && At(s, i + |UnitText(us[0])|, UnitsText(us[1..]) + "\"")
  {
    SplitFirst(s, i, UnitText(us[0]), UnitsText(us[1..]), "\"");
  }

  lemma SplitFirst(s: Bytes, i: nat, a: Bytes, b: Bytes, c: Bytes)
    requires At(s, i, a + b + c)
    ensures At(s, i, a) && At(s, i + |a|, b + c)
  {
    Assoc(a, b, c);
    AtSplit(s, i, a, b + c);
  }

  lemma LastAfterIsPoint(last: int, u: Unit)
    requires IsUnit(u)
    ensures IsPoint(LastAfter(last, u))
  {
  }

  /** Every sequence of units up to the closing quote is read as what it means. */
  lemma {:induction false} ReadUnits(read: Reader, enc: Encoding, s: Bytes, i: nat, out: Bytes, last: int, us: seq<Unit>)
    requires ReadsUnits(read, enc, s) && AllUnits(us) && At(s, i, UnitsText(us) + "\"") && IsPoint(last)
    ensures read(i, out, last) == Ok(out + Delayed(enc, last, us), i + |UnitsText(us)| + 1)
    decreases |us|
  {
    if us == [] {
      AtByte(s, i, UnitsText(us) + "\"", 0);
      assert EndsAtQuote(read, enc, s, i, out, last);
    } else {
      var out', last', next := PassFront(read, enc, s, i, out, last, us);
      ReadUnits(read, enc, s, next, out', last', us[1..]);
    }
  }

  lemma PassFront(read: Reader, enc: Encoding, s: Bytes, i: nat, out: Bytes, last: int, us: seq<Unit>)
    returns (out': Bytes, last': int, next: nat)
    requires ReadsUnits(read, enc, s) && us != [] && AllUnits(us) && At(s, i, UnitsText(us) + "\"") && IsPoint(last)
    ensures IsPoint(last') && read(i, out, last) == read(next, out', last')
    ensures At(s, next, UnitsText(us[1..]) + "\"") && next + |UnitsText(us[1..])| == i + |UnitsText(us)|
    ensures out' + Delayed(enc, last', us[1..]) == out + Delayed(enc, last, us)
  {
    SplitUnits(s, i, us);
    out', last' := PassOne(read, enc, s, i, out, last, us[0]);
    next := i + |UnitText(us[0])|;
    Assoc(out, Flushed(enc, last, us[0]), Delayed(enc, last', us[1..]));
  }

  lemma PassOne(read: Reader, enc: Encoding, s: Bytes, i: nat, out: Bytes, last: int, u: Unit) returns (out': Bytes, last': int)
    requires ReadsUnits(read, enc, s) && IsUnit(u) && At(s, i, UnitText(u)) && IsPoint(last)
    ensures IsPoint(last') && last' == LastAfter(last, u) && out' == out + Flushed(enc, last, u)
    ensures i < i + |UnitText(u)| <= |s| && read(i, out, last) == read(i + |UnitText(u)|, out', last')
  {
    LastAfterIsPoint(last, u);
    assert PassesUnit(read, enc, s, i, out, last, u);
    out', last' := out + Flushed(enc, last, u), LastAfter(last, u);
  }

  lemma AtJoin(s: Bytes, i: nat, a: Bytes, b: Bytes)
    requires At(s, i, a) && At(s, i + |a|, b)
    ensures At(s, i, a + b)
  {
    assert s[i..i + |a + b|] == s[i..i + |a|] + s[i + |a|..i + |a| + |b|];
  }

  lemma JoinUnits(s: Bytes, i: nat, u: Unit, rest: seq<Unit>) returns (us: seq<Unit>)
    requires IsUnit(u) && AllUnits(rest) && At(s, i, UnitText(u)) && At(s, i + |UnitText(u)|, UnitsText(rest) + "\"")
    ensures AllUnits(us) && At(s, i, UnitsText(us) + "\"")
  {
    us := [u] + rest;
    assert us[1..] == rest;
    Assoc(UnitText(u), UnitsText(rest), "\"");
    AtJoin(s, i, UnitText(u), UnitsText(rest) + "\"");
  }

  /** Whatever is read as a string is a sequence of units up to a closing quote. */
  lemma {:induction false} UnitsOf(read: Reader, enc: Encoding, s: Bytes, i: nat, out: Bytes, last: int) returns (us: seq<Unit>)
    requires ReadsUnits(read, enc, s) && i <= |s| && IsPoint(last) && read(i, out, last).Ok?
    ensures AllUnits(us) && At(s, i, UnitsText(us) + "\"")
    decreases |s| - i
  {
    assert RefusesOthers(read, s, i, out, last);
    if s[i] == '\"' {
      us := [];
      assert s[i..i + 1] == "\"";
    } else {
      var u, out', last', next := PassNext(read, enc, s, i, out, last);
      var rest := UnitsOf(read, enc, s, next, out', last');
      us := JoinUnits(s, i, u, rest);
    }
  }

  lemma PassNext(read: Reader, enc: Encoding, s: Bytes, i: nat, out: Bytes, last: int)
    returns (u: Unit, out': Bytes, last': int, next: nat)
    requires ReadsUnits(read, enc, s) && i < |s| && s[i] != '\"' && IsPoint(last) && read(i, out, last).Ok?
    ensures IsUnit(u) && At(s, i, UnitText(u)) && next == i + |UnitText(u)| && i < next <= |s|
    ensures IsPoint(last') && read(i, out, last) == read(next, out', last')
  {
    assert RefusesOthers(read, s, i, out, last);
    u :| IsUnit(u) && At(s, i, UnitText(u));
    out', last' := PassOne(read, enc, s, i, out, last, u);
    next := i + |UnitText(u)|;
  }

  // ---------------------------------------------------------------- the parser is such a reader

  function StringReader(s: Bytes): Reader {
    (i: nat, out, last) => if i <= |s| && IsPoint(last) then ParseString(s, i, out, last) else Fail(EndInString)
  }

  lemma ReadRaw(s: Bytes, i: nat, out: Bytes, last: int, c: char)
    requires IsUnit(Raw(c)) && i < |s| && s[i] == c && IsPoint(last)
    ensures ParseString(s, i, out, last) == ParseString(s, i + 1, out + Encoded(last) + [c], NO_CODE_POINT)
  {
  }

  lemma ReadSimple(s: Bytes, i: nat, out: Bytes, last: int, l: char)
    requires IsUnit(Simple(l)) && i + 1 < |s| && s[i] == '\\' && s[i + 1] == l && IsPoint(last)
    ensures ParseString(s, i, out, last) == ParseString(s, i + 2, out + Encoded(last) + Letter(l), NO_CODE_POINT)
  {
    LettersAreEscapes(l);
  }

  lemma ReadCode(s: Bytes, i: nat, out: Bytes, last: int, pt: int)
    requires i + 6 <= |s| && s[i] == '\\' && s[i + 1] == 'u' && Hex4(s, i + 2) == pt >= 0 && IsPoint(last)
    ensures ParseString(s, i, out, last) ==
            if IsHighSurrogate(last) && IsLowSurrogate(pt) then ParseString(s, i + 6, out + Encoded(PairPoint(last, pt)), NO_CODE_POINT)
            else ParseString(s, i + 6, out + Encoded(last), pt)
  {
  }

  lemma AtCode(s: Bytes, i: nat, h: Bytes, pt: int)
    requires IsNumeral(h, pt) && At(s, i, ['\\', 'u'] + h)
    ensures 0 <= pt <= 0xffff && i + 6 <= |s| && s[i] == '\\' && s[i + 1] == 'u' && Hex4(s, i + 2) == pt
  {
    AtByte(s, i, ['\\', 'u'] + h, 0);
    AtByte(s, i, ['\\', 'u'] + h, 1);
    AtSplit(s, i, ['\\', 'u'], h);
    Hex4Iff(s, i + 2, pt);
  }

  lemma PassesPlain(s: Bytes, i: nat, out: Bytes, last: int, u: Unit)
    requires !u.Code?
    ensures PassesUnit(StringReader(s), UTF8, s, i, out, last, u)
  {
    if IsUnit(u) && At(s, i, UnitText(u)) && IsPoint(last) {
      AtByte(s, i, UnitText(u), 0);
      Assoc(out, Encoded(last), UnitBytes(UTF8, u));
      if u.Raw? {
        ReadRaw(s, i, out, last, u.c);
      } else {
        AtByte(s, i, UnitText(u), 1);
        ReadSimple(s, i, out, last, u.letter);
      }
    }
  }

  lemma PassesCode(s: Bytes, i: nat, out: Bytes, last: int, u: Unit)
    requires u.Code?
    ensures PassesUnit(StringReader(s), UTF8, s, i, out, last, u)
  {
    if IsUnit(u) && At(s, i, UnitText(u)) && IsPoint(last) {
      AtCode(s, i, u.digits, u.pt);
      ReadCode(s, i, out, last, u.pt);
    }
  }

  lemma FrontCode(s: Bytes, i: nat)
    requires i + 1 < |s| && s[i] == '\\' && s[i + 1] == 'u' && Hex4(s, i + 2) >= 0
    ensures exists u :: IsUnit(u) && At(s, i, UnitText(u))
  {
    var pt, h := Hex4(s, i + 2), s[i + 2..i + 6];
    Hex4Iff(s, i + 2, pt);
    AtEscape(s, i, h);
    assert IsUnit(Code(h, pt)) && At(s, i, UnitText(Code(h, pt)));
  }

  lemma AtEscape(s: Bytes, i: nat, h: Bytes)
    requires i + 6 <= |s| && s[i] == '\\' && s[i + 1] == 'u' && h == s[i + 2..i + 6]
    ensures At(s, i, ['\\', 'u'] + h)
  {
    assert s[i..i + 6] == ['\\', 'u'] + h;
  }

  lemma FrontUnit(s: Bytes, i: nat)
    requires i < |s| && s[i] != '\"' && s[i] as int > 0x1f
    requires s[i] == '\\' ==> i + 1 < |s| && if s[i + 1] == 'u' then Hex4(s, i + 2) >= 0 else SimpleEscape(s[i + 1]) >= 0
    ensures exists u :: IsUnit(u) && At(s, i, UnitText(u))
  {
    if s[i] != '\\' {
      assert s[i..i + 1] == [s[i]];
      assert IsUnit(Raw(s[i])) && At(s, i, UnitText(Raw(s[i])));
    } else if s[i + 1] == 'u' {
      FrontCode(s, i);
    } else {
      LettersAreEscapes(s[i + 1]);
      assert s[i..i + 2] == ['\\', s[i + 1]];
      assert IsUnit(Simple(s[i + 1])) && At(s, i, UnitText(Simple(s[i + 1])));
    }
  }

  /** Control bytes, unknown letters and bad digits are refused by name. */
  lemma RefusedAtOnce(s: Bytes, i: nat, out: Bytes, last: int)
    requires i <= |s| && IsPoint(last)
    ensures i == |s| ==> ParseString(s, i, out, last) == Fail(EndInString)
    ensures i < |s| && s[i] as int <= 0x1f ==> ParseString(s, i, out, last) == Fail(Unescaped(s[i]))
    ensures i < |s| && s[i] == '\\' && i + 1 == |s| ==> ParseString(s, i, out, last) == Fail(EndInString)
    ensures i + 1 < |s| && s[i] == '\\' && s[i + 1] == 'u' && Hex4(s, i + 2) < 0 ==> ParseString(s, i, out, last) == Fail(BadEscape)
    ensures i + 1 < |s| && s[i] == '\\' && s[i + 1] != 'u' && s[i + 1] !in LETTERS ==>
              ParseString(s, i, out, last) == Fail(InvalidEscape(s[i + 1]))
  {
    if i + 1 < |s| { LettersAreEscapes(s[i + 1]); }
  }

  lemma ParserRefusesOthers(s: Bytes, i: nat, out: Bytes, last: int)
    ensures RefusesOthers(StringReader(s), s, i, out, last)
  {
    if i <= |s| && IsPoint(last) && ParseString(s, i, out, last).Ok? {
      RefusedAtOnce(s, i, out, last);
      if i + 1 < |s| { LettersAreEscapes(s[i + 1]); }
      if s[i] != '\"' { FrontUnit(s, i); }
    }
  }

  lemma ParserEndsAtQuote(s: Bytes, i: nat, out: Bytes, last: int)
    ensures EndsAtQuote(StringReader(s), UTF8, s, i, out, last)
  {
  }

  lemma ParserReadsUnits(s: Bytes)
    ensures ReadsUnits(StringReader(s), UTF8, s)
  {
    forall i: nat, out, last, u
      ensures PassesUnit(StringReader(s), UTF8, s, i, out, last, u)
    {
      if u.Code? { PassesCode(s, i, out, last, u); } else { PassesPlain(s, i, out, last, u); }
    }
    forall i: nat, out, last
      ensures EndsAtQuote(StringReader(s), UTF8, s, i, out, last)
      ensures RefusesOthers(StringReader(s), s, i, out, last)
    {
      ParserEndsAtQuote(s, i, out, last);
      ParserRefusesOthers(s, i, out, last);
    }
  }

  lemma StringsAreRead(read: Reader, enc: Encoding, s: Bytes, i: nat, us: seq<Unit>)
    requires ReadsUnits(read, enc, s) && AllUnits(us) && At(s, i, UnitsText(us) + "\"")
    ensures read(i, [], NO_CODE_POINT) == Ok(Meaning(enc, us), i + |UnitsText(us)| + 1)
  {
    ReadUnits(read, enc, s, i, [], NO_CODE_POINT, us);
    DelayedIsMeaning(enc, us);
    assert [] + Meaning(enc, us) == Meaning(enc, us);
  }

  /** The parser reads exactly the strings of RFC 8259, surrogate pairs and all, and makes of them
      what they mean. */
  lemma ReadsExactlyStrings(s: Bytes, i: nat, k: nat, v: Bytes)
    requires i <= |s|
    ensures ParseString(s, i, [], NO_CODE_POINT) == Ok(v, k) <==> StringAt(s, i, k, v)
  {
    var read := StringReader(s);
    ParserReadsUnits(s);
    assert read(i, [], NO_CODE_POINT) == ParseString(s, i, [], NO_CODE_POINT);
    if StringAt(s, i, k, v) {
      var us :| AllUnits(us) && At(s, i, UnitsText(us) + "\"") && k == i + |UnitsText(us)| + 1 && v == Meaning(UTF8, us);
      StringsAreRead(read, UTF8, s, i, us);
    }
    if ParseString(s, i, [], NO_CODE_POINT) == Ok(v, k) {
      var us := UnitsOf(read, UTF8, s, i, [], NO_CODE_POINT);
      StringsAreRead(read, UTF8, s, i, us);
    }
  }
}
