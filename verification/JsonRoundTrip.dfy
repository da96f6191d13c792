/** Parsing the text of a value gives the value back (sections 7 of RFC 8259, 3 of RFC 3629). */
module JsonRoundTrip {
  import opened Basics
  import opened Decimals
  import opened JsonText
  import opened JsonParsing

  /** The text t stands in s at position i. */
  ghost predicate At(s: Bytes, i: nat, t: Bytes) {
    i + |t| <= |s| && s[i..i + |t|] == t
  }

  lemma AtSplit(s: Bytes, i: nat, a: Bytes, b: Bytes)
    requires At(s, i, a + b)
    ensures At(s, i, a) && At(s, i + |a|, b)
  {
    var whole := s[i..i + |a + b|];
    assert s[i..i + |a|] == whole[..|a|] == a;
    assert s[i + |a|..i + |a| + |b|] == whole[|a|..] == b;
  }

  lemma AtByte(s: Bytes, i: nat, t: Bytes, k: nat)
    requires At(s, i, t) && k < |t|
    ensures s[i + k] == t[k]
  {
  }

  // ---------------------------------------------------------------- strings

  /** A code point that may be waiting while printed text is read. */
  predicate Waiting(last: int) { NO_CODE_POINT <= last <= 0xffff && !IsHighSurrogate(last) }

  /** Reading one printed byte adds that byte, now or when the delayed code point is flushed. */
  lemma ReadByte(s: Bytes, i: nat, out: Bytes, last: int, c: char) returns (out': Bytes, last': int)
    requires At(s, i, EscapeByte(c)) && Waiting(last)
    ensures Waiting(last') && out' + Utf8(last') == out + Utf8(last) + [c]
    ensures ParseString(s, i, out, last) == ParseString(s, i + |EscapeByte(c)|, out', last')
  {
    var t := EscapeByte(c);
    AtByte(s, i, t, 0);
    out', last' := out + Utf8(last) + [c], NO_CODE_POINT;
    assert out' + Utf8(NO_CODE_POINT) == out';
    if |t| == 2 {
      AtByte(s, i, t, 1);
    } else if |t| > 2 {
      AtByte(s, i, t, 1);
      AtByte(s, i, t, 2);
      AtByte(s, i, t, 3);
      AtByte(s, i, t, 4);
      AtByte(s, i, t, 5);
      assert Hex4(s, i + 2) == c as int;
      out', last' := out + Utf8(last), c as int;
      assert Utf8(c as int) == [c];
    }
  }

  lemma ReadSeparator(s: Bytes, i: nat, out: Bytes, last: int, text: Bytes, sep: Bytes)
    requires StartsWithSeparator(sep) && |sep| == 3
    requires text == if sep[2] == 0xa8 as char then "\\u2028" else "\\u2029"
    requires At(s, i, text) && Waiting(last)
    ensures var pt := if sep[2] == 0xa8 as char then 0x2028 else 0x2029;
            Utf8(pt) == sep && ParseString(s, i, out, last) == ParseString(s, i + 6, out + Utf8(last), pt)
  {
    var pt := if sep[2] == 0xa8 as char then 0x2028 else 0x2029;
    AtByte(s, i, text, 0);
    AtByte(s, i, text, 1);
    AtByte(s, i, text, 2);
    AtByte(s, i, text, 3);
    AtByte(s, i, text, 4);
    AtByte(s, i, text, 5);
    assert Hex4(s, i + 2) == pt;
    assert Utf8(pt) == sep;
  }

  /** Every byte string is read back from its escaped form, wherever it stands. */
  lemma {:induction false} ReadEscaped(s: Bytes, i: nat, out: Bytes, last: int, v: Bytes)
    requires At(s, i, Escape(v) + "\"") && Waiting(last)
    ensures ParseString(s, i, out, last) == Ok(out + Utf8(last) + v, i + |Escape(v)| + 1)
    decreases |v|
  {
    if v == [] {
      AtByte(s, i, Escape(v) + "\"", 0);
      assert out + Utf8(last) + v == out + Utf8(last);
    } else if StartsWithSeparator(v) {
      ReadEscapedSeparator(s, i, out, last, v);
    } else {
      ReadEscapedByte(s, i, out, last, v);
    }
  }

  lemma {:induction false} ReadEscapedByte(s: Bytes, i: nat, out: Bytes, last: int, v: Bytes)
    requires v != [] && !StartsWithSeparator(v)
    requires At(s, i, Escape(v) + "\"") && Waiting(last)
    ensures ParseString(s, i, out, last) == Ok(out + Utf8(last) + v, i + |Escape(v)| + 1)
    decreases |v|, 0
  {
    var out', last', next := EscapedByteStep(s, i, out, last, v);
    ReadEscaped(s, next, out', last', v[1..]);
    Regroup(out', last', out + Utf8(last), v[..1], v);
  }

  /** The first byte is read; what is left is the escaped form of the others. */
  lemma EscapedByteStep(s: Bytes, i: nat, out: Bytes, last: int, v: Bytes) returns (out': Bytes, last': int, next: nat)
    requires v != [] && !StartsWithSeparator(v)
    requires At(s, i, Escape(v) + "\"") && Waiting(last)
    ensures Waiting(last') && out' + Utf8(last') == out + Utf8(last) + v[..1]
    ensures next <= |s| && ParseString(s, i, out, last) == ParseString(s, next, out', last')
    ensures At(s, next, Escape(v[1..]) + "\"") && next + |Escape(v[1..])| == i + |Escape(v)|
  {
    SplitEscaped(s, i, EscapeByte(v[0]), v, v[1..]);
    out', last' := ReadByte(s, i, out, last, v[0]);
    next := i + |EscapeByte(v[0])|;
    assert v[..1] == [v[0]];
  }

  lemma {:induction false} ReadEscapedSeparator(s: Bytes, i: nat, out: Bytes, last: int, v: Bytes)
    requires StartsWithSeparator(v)
    requires At(s, i, Escape(v) + "\"") && Waiting(last)
    ensures ParseString(s, i, out, last) == Ok(out + Utf8(last) + v, i + |Escape(v)| + 1)
    decreases |v|, 0
  {
    var pt := SeparatorStep(s, i, out, last, v);
    ReadEscaped(s, i + 6, out + Utf8(last), pt, v[3..]);
    Regroup(out + Utf8(last), pt, out + Utf8(last), v[..3], v);
  }

  /** The separator is read as a delayed code point; what is left is the escaped rest. */
  lemma SeparatorStep(s: Bytes, i: nat, out: Bytes, last: int, v: Bytes) returns (pt: int)
    requires StartsWithSeparator(v)
    requires At(s, i, Escape(v) + "\"") && Waiting(last)
    ensures Waiting(pt) && pt > 0 && Utf8(pt) == v[..3]
    ensures i + 6 <= |s| && ParseString(s, i, out, last) == ParseString(s, i + 6, out + Utf8(last), pt)
    ensures At(s, i + 6, Escape(v[3..]) + "\"") && i + 6 + |Escape(v[3..])| == i + |Escape(v)|
  {
    var text: Bytes := if v[2] == 0xa8 as char then "\\u2028" else "\\u2029";
    pt := if v[2] == 0xa8 as char then 0x2028 else 0x2029;
    SplitEscaped(s, i, text, v, v[3..]);
    ReadSeparator(s, i, out, last, text, v[..3]);
  }

  lemma SplitEscaped(s: Bytes, i: nat, text: Bytes, v: Bytes, tail: Bytes)
    requires Escape(v) == text + Escape(tail) && At(s, i, Escape(v) + "\"")
    ensures At(s, i, text) && At(s, i + |text|, Escape(tail) + "\"")
    ensures i + |Escape(v)| == i + |text| + |Escape(tail)|
  {
    assert Escape(v) + "\"" == text + (Escape(tail) + "\"");
    AtSplit(s, i, text, Escape(tail) + "\"");
  }

  lemma Regroup(out': Bytes, last': int, before: Bytes, head: Bytes, v: Bytes)
    requires last' <= 0xffff && |head| <= |v| && v[..|head|] == head
    requires out' + Utf8(last') == before + head
    ensures out' + Utf8(last') + v[|head|..] == before + v
  {
  }

  lemma ReadQuoted(s: Bytes, i: nat, v: Bytes)
    requires At(s, i, Quoted(v))
    ensures i < |s| && s[i] == '\"'
    ensures ParseString(s, i + 1, [], NO_CODE_POINT) == Ok(v, i + |Quoted(v)|)
  {
    OpensQuote(s, i, v);
    ReadEscaped(s, i + 1, [], NO_CODE_POINT, v);
    assert [] + Utf8(NO_CODE_POINT) + v == v;
  }

  lemma OpensQuote(s: Bytes, i: nat, v: Bytes)
    requires At(s, i, Quoted(v))
    ensures i < |s| && s[i] == '\"' && At(s, i + 1, Escape(v) + "\"") && |Quoted(v)| == |Escape(v)| + 2
  {
    assert Quoted(v) == "\"" + (Escape(v) + "\"");
    AtByte(s, i, Quoted(v), 0);
    AtSplit(s, i, "\"", Escape(v) + "\"");
  }

  // ---------------------------------------------------------------- numbers

  /** What may follow a value in printed text. */
  ghost predicate Delimited(s: Bytes, k: nat) {
    k == |s| || (k < |s| && (s[k] == ',' || s[k] == ']' || s[k] == '}' || s[k] == '\n'))
  }

  lemma {:induction false} ReadDigits(s: Bytes, i: nat, n: nat)
    requires At(s, i, Digits(n))
    ensures forall j :: i <= j < i + |Digits(n)| ==> IsDigit(s[j])
    ensures DigitsValue(s, i, i + |Digits(n)|) == n
  {
    DigitsAreDigits(n);
    var t := Digits(n);
    forall j | i <= j < i + |t|
      ensures IsDigit(s[j])
    {
      AtByte(s, i, t, j - i);
    }
    if n < 10 {
      AtByte(s, i, t, 0);
      assert DigitsValue(s, i, i) == 0;
    } else {
      AtSplit(s, i, Digits(n / 10), [Digit(n % 10)]);
      ReadDigits(s, i, n / 10);
      AtByte(s, i, t, |t| - 1);
    }
  }

  lemma {:induction false} SkipToEnd(s: Bytes, i: nat, k: nat)
    requires i <= k <= |s| && (forall j :: i <= j < k ==> IsDigit(s[j])) && !IsDigit(CharAt(s, k))
    ensures SkipDigits(s, i) == k
    decreases k - i
  {
    if i < k { SkipToEnd(s, i + 1, k); }
  }

  lemma ReadInteger(s: Bytes, i: nat, n: nat)
    requires At(s, i, Digits(n)) && Delimited(s, i + |Digits(n)|)
    ensures ParseIntegerPart(s, i) == Ok((), i + |Digits(n)|)
    ensures DigitsValue(s, i, i + |Digits(n)|) == n
  {
    ReadDigits(s, i, n);
    DigitsAreDigits(n);
    AtByte(s, i, Digits(n), 0);
    if n > 0 { SkipToEnd(s, i + 1, i + |Digits(n)|); }
  }

  lemma ParseNumberStep(s: Bytes, i: nat, first: nat, k: nat)
    requires i <= |s| && first == (if CharAt(s, i) == '-' then i + 1 else i)
    requires first <= k <= |s| && ParseIntegerPart(s, first) == Ok((), k) && Delimited(s, k)
    requires 0 <= DigitsValue(s, first, k) <= EXACT_DOUBLE
    ensures ParseNumber(s, i) == Ok(Number(if first > i then -DigitsValue(s, first, k) else DigitsValue(s, first, k)), k)
  {
  }

  lemma ReadInt(s: Bytes, i: nat, n: int)
    requires INT_MIN <= n <= INT_MAX
    requires At(s, i, IntText(n)) && Delimited(s, i + |IntText(n)|)
    ensures ParseNumber(s, i) == Ok(Number(n), i + |IntText(n)|)
    ensures i < |s| && (s[i] == '-' || IsDigit(s[i]))
  {
    AtByte(s, i, IntText(n), 0);
    var k := i + |IntText(n)|;
    if n < 0 {
      AtSplit(s, i, ['-'], Digits(-n));
      ReadInteger(s, i + 1, -n);
      ParseNumberStep(s, i, i + 1, k);
    } else {
      DigitsAreDigits(n);
      ReadInteger(s, i, n);
      ParseNumberStep(s, i, i, k);
    }
  }

  // ---------------------------------------------------------------- values

  /** A token that is not space is read where it stands, also behind one space. */
  lemma ReadToken(s: Bytes, i: nat, c: char)
    requires i <= |s| && !IsSpace(c)
    requires (i < |s| && s[i] == c) || (i + 1 < |s| && s[i] == ' ' && s[i + 1] == c)
    ensures NextToken(s, i) == Ok(c, if s[i] == c then i + 1 else i + 2)
  {
    if s[i] != c { assert SkipSpace(s, i) == SkipSpace(s, i + 1); }
  }

  /** The first byte of a scalar's text is no space and no bracket. */
  lemma FirstByte(v: Json)
    requires Printable(v) && !v.Array? && !v.Object?
    ensures ScalarText(v) != [] && !IsSpace(ScalarText(v)[0]) && !IsBracket(ScalarText(v)[0])
  {
    if v.Number? { DigitsAreDigits(if v.n < 0 then -v.n else v.n); }
  }

  predicate IsBracket(c: char) { c == '[' || c == ']' || c == '{' || c == '}' }

  /** A scalar is read from its text, wherever it stands. */
  lemma ReadScalar(s: Bytes, i: nat, v: Json)
    requires !v.Array? && !v.Object?
    requires Printable(v) && At(s, i, ScalarText(v)) && Delimited(s, i + |ScalarText(v)|)
    ensures i < |s| && ScalarText(v) != [] && ParseScalar(s, i + 1, ScalarText(v)[0]) == Ok(v, i + |ScalarText(v)|)
  {
    FirstByte(v);
    AtByte(s, i, ScalarText(v), 0);
    if v.Number? {
      ReadInt(s, i, v.n);
    } else if v.String? {
      ReadQuoted(s, i, v.s);
    }
  }

  // ---------------------------------------------------------------- lists and objects

  // The bracket structure is read back with every lexer that reads back tokens, strings
  // and scalars.

  ghost predicate ReadsToken(lex: Lexer, s: Bytes, i: nat, c: char) {
    && (At(s, i, [c]) && !IsSpace(c) ==> lex.token(s, i) == Ok(c, i + 1))
    && (At(s, i, [' ', c]) && !IsSpace(c) ==> lex.token(s, i) == Ok(c, i + 2))
  }

  ghost predicate ReadsText(lex: Lexer, pr: Printer, s: Bytes, i: nat, v: Bytes) {
    && (At(s, i, pr.quote(v)) ==> lex.text(s, i + 1) == Ok(v, i + |pr.quote(v)|))
    && pr.quote(v) != [] && pr.quote(v)[0] == '\"'
  }

  ghost predicate ReadsScalar(lex: Lexer, pr: Printer, s: Bytes, i: nat, v: Json) {
    !v.Array? && !v.Object? && Printable(v) ==>
      var t := pr.scalar(v);
      && t != [] && !IsSpace(t[0]) && !IsBracket(t[0])
      && (At(s, i, t) && Delimited(s, i + |t|) ==> lex.scalar(s, i + 1, t[0]) == Ok(v, i + |t|))
  }

  ghost predicate Reads(lex: Lexer, pr: Printer) {
    && lex.Advances()
    && (forall s: Bytes, i: nat, c: char :: ReadsToken(lex, s, i, c))
    && (forall s: Bytes, i: nat, v: Bytes :: ReadsText(lex, pr, s, i, v))
    && (forall s: Bytes, i: nat, v: Json :: ReadsScalar(lex, pr, s, i, v))
    && (forall ms: seq<Member> :: StoresSorted(lex, ms))
  }

  lemma JsonReadsToken(s: Bytes, i: nat, c: char)
    ensures ReadsToken(JSON, s, i, c)
  {
    if !IsSpace(c) && At(s, i, [c]) {
      AtByte(s, i, [c], 0);
      ReadToken(s, i, c);
    }
    if !IsSpace(c) && At(s, i, [' ', c]) {
      AtByte(s, i, [' ', c], 0);
      AtByte(s, i, [' ', c], 1);
      ReadToken(s, i, c);
    }
  }

  lemma JsonReadsText(s: Bytes, i: nat, v: Bytes)
    ensures ReadsText(JSON, TEXT, s, i, v)
  {
    if At(s, i, Quoted(v)) { ReadQuoted(s, i, v); }
  }

  lemma JsonReadsScalar(s: Bytes, i: nat, v: Json)
    ensures ReadsScalar(JSON, TEXT, s, i, v)
  {
    if !v.Array? && !v.Object? && Printable(v) {
      FirstByte(v);
      if At(s, i, ScalarText(v)) && Delimited(s, i + |ScalarText(v)|) { ReadScalar(s, i, v); }
    }
  }

  lemma JsonStoresSorted(ms: seq<Member>)
    ensures StoresSorted(JSON, ms)
  {
    if SortedByKey(ms) && forall j :: 0 <= j < |ms| ==> Printable(ms[j].value) {
      assert [] + ms == ms;
      SortedIsAppendable([], ms);
    }
  }

  lemma JsonReads()
    ensures Reads(JSON, TEXT)
  {
    JsonAdvances();
    forall s: Bytes, i: nat, c: char ensures ReadsToken(JSON, s, i, c) { JsonReadsToken(s, i, c); }
    forall s: Bytes, i: nat, v: Bytes ensures ReadsText(JSON, TEXT, s, i, v) { JsonReadsText(s, i, v); }
    forall s: Bytes, i: nat, v: Json ensures ReadsScalar(JSON, TEXT, s, i, v) { JsonReadsScalar(s, i, v); }
    forall ms: seq<Member> ensures StoresSorted(JSON, ms) { JsonStoresSorted(ms); }
  }

  /** What parsing the text of a value must give, inside `depth` brackets. */
  function Expectation(v: Json, k: nat, depth: nat): Result<Json> {
    if depth + Nesting(v) <= MAX_DEPTH then Ok(v, k) else Fail(TooDeep)
  }

  /** The first byte of a value's text is neither space nor a closing bracket. */
  lemma FirstOfValue(lex: Lexer, pr: Printer, v: Json) returns (c: char, tail: Bytes)
    requires Reads(lex, pr) && Printable(v)
    ensures Dump(pr, v) == [c] + tail && !IsSpace(c) && c != ']' && c != '}'
    ensures !v.Array? && !v.Object? ==> !IsBracket(c)
  {
    assert ReadsScalar(lex, pr, [], 0, v);
    c, tail := Dump(pr, v)[0], Dump(pr, v)[1..];
  }

  lemma TokenHere(lex: Lexer, pr: Printer, s: Bytes, i: nat, c: char, rest: Bytes)
    requires Reads(lex, pr) && At(s, i, [c] + rest) && !IsSpace(c)
    ensures i < |s| && lex.token(s, i) == Ok(c, i + 1) && At(s, i + 1, rest)
  {
    AtSplit(s, i, [c], rest);
    assert ReadsToken(lex, s, i, c);
  }

  /** What follows an item: a comma, a space and the next one. */
  lemma CommaHere(lex: Lexer, pr: Printer, s: Bytes, k: nat, c: char, tail: Bytes)
    requires Reads(lex, pr) && At(s, k, ", " + ([c] + tail)) && !IsSpace(c)
    ensures k + 2 < |s| && At(s, k + 2, [c] + tail)
    ensures lex.token(s, k) == Ok(',', k + 1) && lex.token(s, k + 1) == Ok(c, k + 3)
  {
    assert ", " + ([c] + tail) == [','] + ([' ', c] + tail);
    TokenHere(lex, pr, s, k, ',', [' ', c] + tail);
    AtSplit(s, k + 1, [' ', c], tail);
    assert ReadsToken(lex, s, k + 1, c);
    AtSplit(s, k, ", ", [c] + tail);
  }

  /** The text of every printable value, anywhere in a text and up to the depth limit, is
      read as that value; beyond the limit it is refused as too deep. */
  lemma {:induction false} ReadValue(lex: Lexer, pr: Printer, s: Bytes, i: nat, v: Json, depth: nat)
    requires Reads(lex, pr)
    requires Printable(v) && At(s, i, Dump(pr, v)) && Delimited(s, i + |Dump(pr, v)|)
    requires depth <= MAX_DEPTH
    ensures ParseValue(lex, s, i, depth) == Expectation(v, i + |Dump(pr, v)|, depth)
    decreases v, 0
  {
    if v.Array? {
      ReadArray(lex, pr, s, i, v.items, depth);
    } else if v.Object? {
      ReadObject(lex, pr, s, i, v.members, depth);
    } else {
      ReadSimple(lex, pr, s, i, v, depth);
    }
  }

  /** One level deeper than the limit nothing is read. */
  lemma {:induction false} ReadWithin(lex: Lexer, pr: Printer, s: Bytes, i: nat, v: Json, depth: nat)
    requires Reads(lex, pr)
    requires Printable(v) && At(s, i, Dump(pr, v)) && Delimited(s, i + |Dump(pr, v)|)
    requires depth <= MAX_DEPTH + 1
    ensures ParseValue(lex, s, i, depth) == Expectation(v, i + |Dump(pr, v)|, depth)
    decreases v, 1
  {
    if depth <= MAX_DEPTH { ReadValue(lex, pr, s, i, v, depth); }
  }

  lemma ReadSimple(lex: Lexer, pr: Printer, s: Bytes, i: nat, v: Json, depth: nat)
    requires Reads(lex, pr) && !v.Array? && !v.Object?
    requires Printable(v) && At(s, i, Dump(pr, v)) && Delimited(s, i + |Dump(pr, v)|)
    requires depth <= MAX_DEPTH
    ensures ParseValue(lex, s, i, depth) == Expectation(v, i + |Dump(pr, v)|, depth)
  {
    var c, tail := FirstOfValue(lex, pr, v);
    TokenHere(lex, pr, s, i, c, tail);
    assert ReadsScalar(lex, pr, s, i, v);
  }

  /** A space in front of a value makes no difference. */
  lemma SpaceIsSkipped(lex: Lexer, pr: Printer, s: Bytes, i: nat, v: Json, depth: nat)
    requires Reads(lex, pr)
    requires i < |s| && s[i] == ' ' && Printable(v) && At(s, i + 1, Dump(pr, v))
    ensures i + 1 <= |s| && ParseValue(lex, s, i, depth) == ParseValue(lex, s, i + 1, depth)
  {
    var c, tail := FirstOfValue(lex, pr, v);
    TokenHere(lex, pr, s, i + 1, c, tail);
    assert s[i..i + 2] == [' ', c] by { AtByte(s, i + 1, Dump(pr, v), 0); }
    assert ReadsToken(lex, s, i, c);
  }

  /** A value is also read from behind one space. */
  lemma {:induction false} ReadSpacedWithin(lex: Lexer, pr: Printer, s: Bytes, i: nat, v: Json, depth: nat)
    requires Reads(lex, pr)
    requires i < |s| && s[i] == ' '
    requires Printable(v) && At(s, i + 1, Dump(pr, v)) && Delimited(s, i + 1 + |Dump(pr, v)|)
    requires depth <= MAX_DEPTH + 1
    ensures ParseValue(lex, s, i, depth) == Expectation(v, i + 1 + |Dump(pr, v)|, depth)
    decreases v, 2
  {
    ReadWithin(lex, pr, s, i + 1, v, depth);
    SpaceIsSkipped(lex, pr, s, i, v, depth);
  }

  // ---------------------------------------------------------------- lists

  /** The text of a list from one of its items on. */
  function ItemsText(pr: Printer, items: seq<Json>): Bytes
    requires items != []
  {
    Dump(pr, items[0]) + (MoreItems(pr, items[1..]) + "]")
  }

  function ItemsExpectation(items: seq<Json>, data: seq<Json>, k: nat, depth: nat): Result<Json> {
    if depth + NestingOfItems(items) <= MAX_DEPTH then Ok(Array(data + items), k) else Fail(TooDeep)
  }

  ghost predicate AllPrintable(items: seq<Json>) {
    items == [] || (Printable(items[0]) && AllPrintable(items[1..]))
  }

  lemma {:induction false} PrintableItems(items: seq<Json>)
    requires forall j :: 0 <= j < |items| ==> Printable(items[j])
    ensures AllPrintable(items)
  {
    if items != [] { PrintableItems(items[1..]); }
  }

  lemma FirstOfItems(lex: Lexer, pr: Printer, items: seq<Json>) returns (c: char, tail: Bytes)
    requires Reads(lex, pr) && items != [] && Printable(items[0])
    ensures ItemsText(pr, items) == [c] + tail && !IsSpace(c) && c != ']'
  {
    var t;
    c, t := FirstOfValue(lex, pr, items[0]);
    tail := t + (MoreItems(pr, items[1..]) + "]");
    assert ([c] + t) + (MoreItems(pr, items[1..]) + "]") == [c] + tail;
  }

  lemma {:induction false} ReadArray(lex: Lexer, pr: Printer, s: Bytes, i: nat, items: seq<Json>, depth: nat)
    requires Reads(lex, pr)
    requires Printable(Array(items)) && At(s, i, Dump(pr, Array(items)))
    requires depth <= MAX_DEPTH
    ensures ParseValue(lex, s, i, depth) == Expectation(Array(items), i + |Dump(pr, Array(items))|, depth)
    decreases items, |items| + 1
  {
    if items == [] {
      assert Dump(pr, Array(items)) == ['['] + "]" && "]" == [']'] + [];
      TokenHere(lex, pr, s, i, '[', "]");
      TokenHere(lex, pr, s, i + 1, ']', []);
    } else {
      assert Dump(pr, Array(items)) == ['['] + ItemsText(pr, items);
      TokenHere(lex, pr, s, i, '[', ItemsText(pr, items));
      var c, tail := FirstOfItems(lex, pr, items);
      TokenHere(lex, pr, s, i + 1, c, tail);
      PrintableItems(items);
      ReadItems(lex, pr, s, i + 1, items, [], depth);
      assert [] + items == items;
    }
  }

  lemma ConcatFour(a: Bytes, b: Bytes, c: Bytes, d: Bytes)
    ensures a + b + c + d == a + (b + (c + d))
  {
  }

  /** What follows an item. */
  lemma SplitAfterItem(lex: Lexer, pr: Printer, s: Bytes, k: nat, items: seq<Json>)
    requires Reads(lex, pr) && items != [] && AllPrintable(items) && At(s, k, MoreItems(pr, items[1..]) + "]")
    ensures k < |s| && Delimited(s, k)
    ensures |items| == 1 ==> lex.token(s, k) == Ok(']', k + 1) && MoreItems(pr, items[1..]) == []
    ensures |items| > 1 ==>
              && lex.token(s, k) == Ok(',', k + 1)
              && k + 2 < |s| && lex.token(s, k + 1).Ok? && lex.token(s, k + 1).next == k + 3
              && At(s, k + 2, ItemsText(pr, items[1..]))
              && |MoreItems(pr, items[1..])| == 1 + |ItemsText(pr, items[1..])|
  {
    var rest := MoreItems(pr, items[1..]) + "]";
    AtByte(s, k, rest, 0);
    if |items| == 1 {
      assert rest == [']'] + [];
      TokenHere(lex, pr, s, k, ']', []);
    } else {
      ConcatFour(", ", Dump(pr, items[1..][0]), MoreItems(pr, items[1..][1..]), "]");
      assert rest == ", " + ItemsText(pr, items[1..]);
      var c, tail := FirstOfItems(lex, pr, items[1..]);
      CommaHere(lex, pr, s, k, c, tail);
    }
  }

  /** An item, and where the parser goes on. */
  lemma SplitItems(lex: Lexer, pr: Printer, s: Bytes, i: nat, items: seq<Json>) returns (k: nat)
    requires Reads(lex, pr)
    requires items != [] && AllPrintable(items) && At(s, i, ItemsText(pr, items))
    ensures k == i + |Dump(pr, items[0])| && k < |s| && At(s, i, Dump(pr, items[0])) && Delimited(s, k)
    ensures |items| == 1 ==> lex.token(s, k) == Ok(']', k + 1) && i + |ItemsText(pr, items)| == k + 1
    ensures |items| > 1 ==>
              && lex.token(s, k) == Ok(',', k + 1)
              && k + 2 < |s| && lex.token(s, k + 1).Ok? && lex.token(s, k + 1).next == k + 3
              && At(s, k + 2, ItemsText(pr, items[1..]))
              && i + |ItemsText(pr, items)| == k + 2 + |ItemsText(pr, items[1..])|
  {
    k := i + |Dump(pr, items[0])|;
    AtSplit(s, i, Dump(pr, items[0]), MoreItems(pr, items[1..]) + "]");
    SplitAfterItem(lex, pr, s, k, items);
  }

  lemma {:induction false} ReadItems(lex: Lexer, pr: Printer, s: Bytes, i: nat, items: seq<Json>, data: seq<Json>, depth: nat)
    requires Reads(lex, pr)
    requires items != [] && AllPrintable(items) && At(s, i, ItemsText(pr, items))
    requires depth <= MAX_DEPTH
    ensures ParseItems(lex, s, i, depth, data) == ItemsExpectation(items, data, i + |ItemsText(pr, items)|, depth)
    decreases items, |items|, 1
  {
    var k := SplitItems(lex, pr, s, i, items);
    ReadWithin(lex, pr, s, i, items[0], depth + 1);
    if depth + 1 + Nesting(items[0]) <= MAX_DEPTH {
      if |items| == 1 {
        LastItem(lex, s, i, k, items, data, depth);
      } else {
        ReadMoreItems(lex, pr, s, i, k, items, data, depth, i + |ItemsText(pr, items)|);
      }
    } else {
      DeepItem(lex, s, i, items, data, depth, i + |ItemsText(pr, items)|);
    }
  }

  lemma DeepItem(lex: Lexer, s: Bytes, i: nat, items: seq<Json>, data: seq<Json>, depth: nat, end: nat)
    requires items != [] && lex.Advances() && i <= |s|
    requires ParseValue(lex, s, i, depth + 1) == Fail(TooDeep) && depth + 1 + Nesting(items[0]) > MAX_DEPTH
    ensures ParseItems(lex, s, i, depth, data) == ItemsExpectation(items, data, end, depth)
  {
  }

  lemma {:induction false} ReadMoreItems(
    lex: Lexer, pr: Printer, s: Bytes, i: nat, k: nat, items: seq<Json>, data: seq<Json>, depth: nat, end: nat)
    requires Reads(lex, pr) && |items| > 1 && AllPrintable(items[1..]) && depth <= MAX_DEPTH
    requires i <= |s| && k + 2 < |s| && At(s, k + 2, ItemsText(pr, items[1..])) && end == k + 2 + |ItemsText(pr, items[1..])|
    requires ParseValue(lex, s, i, depth + 1) == Ok(items[0], k) && depth + 1 + Nesting(items[0]) <= MAX_DEPTH
    requires lex.token(s, k) == Ok(',', k + 1) && lex.token(s, k + 1).Ok? && lex.token(s, k + 1).next == k + 3
    ensures ParseItems(lex, s, i, depth, data) == ItemsExpectation(items, data, end, depth)
    decreases items, |items|, 0
  {
    ReadItems(lex, pr, s, k + 2, items[1..], data + [items[0]], depth);
    NotLastItem(lex, s, i, k, items, data, depth, end);
  }

  lemma LastItem(lex: Lexer, s: Bytes, i: nat, k: nat, items: seq<Json>, data: seq<Json>, depth: nat)
    requires |items| == 1 && lex.Advances() && i <= |s| && k < |s|
    requires ParseValue(lex, s, i, depth + 1) == Ok(items[0], k) && lex.token(s, k) == Ok(']', k + 1)
    requires depth + 1 + Nesting(items[0]) <= MAX_DEPTH
    ensures ParseItems(lex, s, i, depth, data) == ItemsExpectation(items, data, k + 1, depth)
  {
    assert data + [items[0]] == data + items;
    assert NestingOfItems(items[1..]) == 0;
  }

  lemma NotLastItem(lex: Lexer, s: Bytes, i: nat, k: nat, items: seq<Json>, data: seq<Json>, depth: nat, end: nat)
    requires |items| > 1 && lex.Advances() && i <= |s| && k + 2 < |s|
    requires ParseValue(lex, s, i, depth + 1) == Ok(items[0], k) && lex.token(s, k) == Ok(',', k + 1)
    requires lex.token(s, k + 1).Ok? && lex.token(s, k + 1).next == k + 3
    requires depth + 1 + Nesting(items[0]) <= MAX_DEPTH
    requires ParseItems(lex, s, k + 2, depth, data + [items[0]]) ==
             ItemsExpectation(items[1..], data + [items[0]], end, depth)
    ensures ParseItems(lex, s, i, depth, data) == ItemsExpectation(items, data, end, depth)
  {
    assert data + [items[0]] + items[1..] == data + items;
  }

  // ---------------------------------------------------------------- objects

  /** The text of an object from one of its members on. */
  function MembersText(pr: Printer, ms: seq<Member>): Bytes
    requires ms != []
  {
    pr.quote(ms[0].key) + (": " + (Dump(pr, ms[0].value) + (MoreMembers(pr, ms[1..]) + "}")))
  }

  function MembersExpectation(ms: seq<Member>, data: seq<Member>, k: nat, depth: nat): Result<Json> {
    if depth + NestingOfMembers(ms) <= MAX_DEPTH then Ok(Object(data + ms), k) else Fail(TooDeep)
  }

  /** The members are printable, and storing them one after the other appends each. */
  ghost predicate Appendable(lex: Lexer, data: seq<Member>, ms: seq<Member>)
    decreases |ms|
  {
    ms == [] ||
    (&& Printable(ms[0].value)
     && lex.put(data, ms[0]) == data + [ms[0]]
     && Appendable(lex, data + [ms[0]], ms[1..]))
  }

  /** The lexer stores members in ascending order of their keys. */
  ghost predicate StoresSorted(lex: Lexer, ms: seq<Member>) {
    SortedByKey(ms) && (forall j :: 0 <= j < |ms| ==> Printable(ms[j].value)) ==> Appendable(lex, [], ms)
  }

  lemma {:induction false} SortedIsAppendable(data: seq<Member>, ms: seq<Member>)
    requires SortedByKey(data + ms) && forall j :: 0 <= j < |ms| ==> Printable(ms[j].value)
    ensures Appendable(JSON, data, ms)
    decreases |ms|
  {
    if ms != [] {
      forall j | 0 <= j < |data|
        ensures Less(data[j].key, ms[0].key)
      {
        assert (data + ms)[j] == data[j] && (data + ms)[|data|] == ms[0];
      }
      InsertLast(data, ms[0]);
      assert data + [ms[0]] + ms[1..] == data + ms;
      SortedIsAppendable(data + [ms[0]], ms[1..]);
    }
  }

  lemma ConcatFive(a: Bytes, b: Bytes, c: Bytes, d: Bytes, e: Bytes)
    ensures a + b + c + d + e == a + (b + (c + (d + e)))
  {
  }

  lemma FirstOfMembers(lex: Lexer, pr: Printer, ms: seq<Member>) returns (tail: Bytes)
    requires Reads(lex, pr) && ms != []
    ensures MembersText(pr, ms) == ['\"'] + tail
    ensures DumpMembers(pr, ms) + "}" == MembersText(pr, ms)
  {
    var q := pr.quote(ms[0].key);
    assert ReadsText(lex, pr, [], 0, ms[0].key);
    ConcatFive(q, ": ", Dump(pr, ms[0].value), MoreMembers(pr, ms[1..]), "}");
    var rest := ": " + (Dump(pr, ms[0].value) + (MoreMembers(pr, ms[1..]) + "}"));
    tail := q[1..] + rest;
    assert q + rest == ['\"'] + (q[1..] + rest);
  }

  lemma {:induction false} ReadObject(lex: Lexer, pr: Printer, s: Bytes, i: nat, ms: seq<Member>, depth: nat)
    requires Reads(lex, pr)
    requires Printable(Object(ms)) && At(s, i, Dump(pr, Object(ms)))
    requires depth <= MAX_DEPTH
    ensures ParseValue(lex, s, i, depth) == Expectation(Object(ms), i + |Dump(pr, Object(ms))|, depth)
    decreases ms, |ms| + 1
  {
    if ms == [] {
      ReadNoMembers(lex, pr, s, i, depth);
    } else {
      OpensObject(lex, pr, s, i, ms, depth);
      assert [] + ms == ms;
      assert StoresSorted(lex, ms);
      ReadMembers(lex, pr, s, i + 1, ms, [], depth);
    }
  }

  lemma ReadNoMembers(lex: Lexer, pr: Printer, s: Bytes, i: nat, depth: nat)
    requires Reads(lex, pr) && At(s, i, Dump(pr, Object([]))) && depth <= MAX_DEPTH
    ensures ParseValue(lex, s, i, depth) == Ok(Object([]), i + |Dump(pr, Object([]))|)
  {
    assert Dump(pr, Object([])) == ['{'] + (['}'] + []);
    TokenHere(lex, pr, s, i, '{', ['}'] + []);
    TokenHere(lex, pr, s, i + 1, '}', []);
  }

  /** The brace and the quote of the first key. */
  lemma OpensObject(lex: Lexer, pr: Printer, s: Bytes, i: nat, ms: seq<Member>, depth: nat)
    requires Reads(lex, pr) && ms != [] && At(s, i, Dump(pr, Object(ms))) && depth <= MAX_DEPTH
    ensures At(s, i + 1, MembersText(pr, ms)) && i + 2 <= |s| && |Dump(pr, Object(ms))| == 1 + |MembersText(pr, ms)|
    ensures ParseValue(lex, s, i, depth) == ParseMembers(lex, s, i + 2, '\"', depth, [])
  {
    assert Dump(pr, Object(ms)) == ['{'] + (DumpMembers(pr, ms) + "}");
    TokenHere(lex, pr, s, i, '{', DumpMembers(pr, ms) + "}");
    var tail := FirstOfMembers(lex, pr, ms);
    TokenHere(lex, pr, s, i + 1, '\"', tail);
  }

  /** The key and the colon of a member, and where its value stands. */
  lemma SplitKey(lex: Lexer, pr: Printer, s: Bytes, i: nat, ms: seq<Member>) returns (k: nat)
    requires Reads(lex, pr) && ms != [] && At(s, i, MembersText(pr, ms))
    ensures i < |s| && lex.text(s, i + 1) == Ok(ms[0].key, k)
    ensures k + 1 < |s| && lex.token(s, k) == Ok(':', k + 1) && s[k + 1] == ' '
    ensures At(s, k + 2, Dump(pr, ms[0].value) + (MoreMembers(pr, ms[1..]) + "}"))
    ensures i + |MembersText(pr, ms)| == k + 2 + |Dump(pr, ms[0].value)| + |MoreMembers(pr, ms[1..])| + 1
  {
    var key, rest := pr.quote(ms[0].key), Dump(pr, ms[0].value) + (MoreMembers(pr, ms[1..]) + "}");
    k := i + |key|;
    AtSplit(s, i, key, ": " + rest);
    assert ReadsText(lex, pr, s, i, ms[0].key);
    ColonHere(lex, pr, s, k, rest);
  }

  lemma ColonHere(lex: Lexer, pr: Printer, s: Bytes, k: nat, rest: Bytes)
    requires Reads(lex, pr) && At(s, k, ": " + rest)
    ensures k + 1 < |s| && lex.token(s, k) == Ok(':', k + 1) && s[k + 1] == ' ' && At(s, k + 2, rest)
  {
    assert ": " + rest == [':'] + ([' '] + rest);
    TokenHere(lex, pr, s, k, ':', [' '] + rest);
    AtSplit(s, k + 1, [' '], rest);
    AtByte(s, k + 1, [' '], 0);
  }

  /** What follows the value of a member. */
  lemma SplitAfterMember(lex: Lexer, pr: Printer, s: Bytes, k2: nat, ms: seq<Member>)
    requires Reads(lex, pr) && ms != [] && At(s, k2, MoreMembers(pr, ms[1..]) + "}")
    ensures k2 < |s| && Delimited(s, k2)
    ensures |ms| == 1 ==> lex.token(s, k2) == Ok('}', k2 + 1) && MoreMembers(pr, ms[1..]) == []
    ensures |ms| > 1 ==>
              && lex.token(s, k2) == Ok(',', k2 + 1)
              && k2 + 2 < |s| && lex.token(s, k2 + 1) == Ok('\"', k2 + 3)
              && At(s, k2 + 2, MembersText(pr, ms[1..]))
              && |MoreMembers(pr, ms[1..])| == 1 + |MembersText(pr, ms[1..])|
  {
    var rest := MoreMembers(pr, ms[1..]) + "}";
    AtByte(s, k2, rest, 0);
    if |ms| == 1 {
      assert rest == ['}'] + [];
      TokenHere(lex, pr, s, k2, '}', []);
    } else {
      var tail := FirstOfMembers(lex, pr, ms[1..]);
      assert rest == ", " + (DumpMembers(pr, ms[1..]) + "}");
      CommaHere(lex, pr, s, k2, '\"', tail);
    }
  }

  lemma {:induction false} ReadMembers(lex: Lexer, pr: Printer, s: Bytes, i: nat, ms: seq<Member>, data: seq<Member>, depth: nat)
    requires Reads(lex, pr)
    requires ms != [] && Appendable(lex, data, ms) && At(s, i, MembersText(pr, ms))
    requires depth <= MAX_DEPTH
    ensures i < |s|
    ensures ParseMembers(lex, s, i + 1, '\"', depth, data) == MembersExpectation(ms, data, i + |MembersText(pr, ms)|, depth)
    decreases ms, |ms|, 1
  {
    var k := SplitKey(lex, pr, s, i, ms);
    var end := i + |MembersText(pr, ms)|;
    var k2 := MemberValue(lex, pr, s, k, ms, depth, end);
    if depth + 1 + Nesting(ms[0].value) <= MAX_DEPTH {
      if |ms| == 1 {
        LastMember(lex, s, i + 1, k, k2, ms, data, depth);
      } else {
        ReadMoreMembers(lex, pr, s, i + 1, k, k2, ms, data, depth, end);
      }
    } else {
      DeepMember(lex, s, i + 1, k, ms, data, depth, end);
    }
  }

  lemma {:induction false} ReadMoreMembers(
    lex: Lexer, pr: Printer, s: Bytes, i: nat, k: nat, k2: nat, ms: seq<Member>, data: seq<Member>, depth: nat, end: nat)
    requires Reads(lex, pr) && |ms| > 1 && Appendable(lex, data, ms) && depth <= MAX_DEPTH
    requires i <= |s| && k + 1 <= |s| && k2 + 3 <= |s|
    requires At(s, k2 + 2, MembersText(pr, ms[1..])) && end == k2 + 2 + |MembersText(pr, ms[1..])|
    requires lex.text(s, i) == Ok(ms[0].key, k) && lex.token(s, k) == Ok(':', k + 1)
    requires ParseValue(lex, s, k + 1, depth + 1) == Ok(ms[0].value, k2) && depth + 1 + Nesting(ms[0].value) <= MAX_DEPTH
    requires lex.token(s, k2) == Ok(',', k2 + 1) && lex.token(s, k2 + 1) == Ok('\"', k2 + 3)
    ensures ParseMembers(lex, s, i, '\"', depth, data) == MembersExpectation(ms, data, end, depth)
    decreases ms, |ms|, 0
  {
    ReadMembers(lex, pr, s, k2 + 2, ms[1..], data + [ms[0]], depth);
    NotLastMember(lex, s, i, k, k2, ms, data, depth, end);
  }

  lemma DeepMember(lex: Lexer, s: Bytes, i: nat, k: nat, ms: seq<Member>, data: seq<Member>, depth: nat, end: nat)
    requires ms != [] && lex.Advances() && i <= |s| && k + 1 <= |s|
    requires lex.text(s, i) == Ok(ms[0].key, k) && lex.token(s, k) == Ok(':', k + 1)
    requires ParseValue(lex, s, k + 1, depth + 1) == Fail(TooDeep) && depth + 1 + Nesting(ms[0].value) > MAX_DEPTH
    ensures ParseMembers(lex, s, i, '\"', depth, data) == MembersExpectation(ms, data, end, depth)
  {
  }

  /** One turn of the loop over the members. */
  lemma MembersStep(lex: Lexer, s: Bytes, i: nat, depth: nat, data: seq<Member>, m: Member, k: nat, k2: nat, sep: char)
    requires lex.Advances() && i <= |s| && k + 1 <= |s| && k2 + 1 <= |s|
    requires lex.text(s, i) == Ok(m.key, k) && lex.token(s, k) == Ok(':', k + 1)
    requires ParseValue(lex, s, k + 1, depth + 1) == Ok(m.value, k2) && lex.token(s, k2) == Ok(sep, k2 + 1)
    requires lex.put(data, m) == data + [m]
    ensures sep == '}' ==> ParseMembers(lex, s, i, '\"', depth, data) == Ok(Object(data + [m]), k2 + 1)
    ensures sep == ',' && lex.token(s, k2 + 1) == Ok('\"', k2 + 3) ==>
              k2 + 3 <= |s| &&
              ParseMembers(lex, s, i, '\"', depth, data) == ParseMembers(lex, s, k2 + 3, '\"', depth, data + [m])
  {
  }

  /** The value of a member, once its key has been read, and what follows it. */
  lemma {:induction false} MemberValue(lex: Lexer, pr: Printer, s: Bytes, k: nat, ms: seq<Member>, depth: nat, end: nat) returns (k2: nat)
    requires Reads(lex, pr) && ms != [] && Printable(ms[0].value)
    requires k + 1 < |s| && s[k + 1] == ' '
    requires At(s, k + 2, Dump(pr, ms[0].value) + (MoreMembers(pr, ms[1..]) + "}"))
    requires end == k + 2 + |Dump(pr, ms[0].value)| + |MoreMembers(pr, ms[1..])| + 1
    requires depth <= MAX_DEPTH
    ensures ParseValue(lex, s, k + 1, depth + 1) == Expectation(ms[0].value, k2, depth + 1) && k2 < |s|
    ensures |ms| == 1 ==> lex.token(s, k2) == Ok('}', k2 + 1) && end == k2 + 1
    ensures |ms| > 1 ==>
              && lex.token(s, k2) == Ok(',', k2 + 1)
              && k2 + 2 < |s| && lex.token(s, k2 + 1) == Ok('\"', k2 + 3)
              && At(s, k2 + 2, MembersText(pr, ms[1..])) && end == k2 + 2 + |MembersText(pr, ms[1..])|
    decreases ms, |ms|, 0
  {
    k2 := AfterValue(lex, pr, s, k, ms, end);
    ReadSpacedWithin(lex, pr, s, k + 1, ms[0].value, depth + 1);
  }

  lemma AfterValue(lex: Lexer, pr: Printer, s: Bytes, k: nat, ms: seq<Member>, end: nat) returns (k2: nat)
    requires Reads(lex, pr) && ms != []
    requires At(s, k + 2, Dump(pr, ms[0].value) + (MoreMembers(pr, ms[1..]) + "}"))
    requires end == k + 2 + |Dump(pr, ms[0].value)| + |MoreMembers(pr, ms[1..])| + 1
    ensures k2 == k + 2 + |Dump(pr, ms[0].value)| && k2 < |s| && Delimited(s, k2) && At(s, k + 2, Dump(pr, ms[0].value))
    ensures |ms| == 1 ==> lex.token(s, k2) == Ok('}', k2 + 1) && end == k2 + 1
    ensures |ms| > 1 ==>
              && lex.token(s, k2) == Ok(',', k2 + 1)
              && k2 + 2 < |s| && lex.token(s, k2 + 1) == Ok('\"', k2 + 3)
              && At(s, k2 + 2, MembersText(pr, ms[1..])) && end == k2 + 2 + |MembersText(pr, ms[1..])|
  {
    k2 := k + 2 + |Dump(pr, ms[0].value)|;
    AtSplit(s, k + 2, Dump(pr, ms[0].value), MoreMembers(pr, ms[1..]) + "}");
    SplitAfterMember(lex, pr, s, k2, ms);
  }

  lemma LastMember(lex: Lexer, s: Bytes, i: nat, k: nat, k2: nat, ms: seq<Member>, data: seq<Member>, depth: nat)
    requires |ms| == 1 && lex.Advances() && i <= |s| && k + 1 <= |s| && k2 + 1 <= |s|
    requires lex.text(s, i) == Ok(ms[0].key, k) && lex.token(s, k) == Ok(':', k + 1)
    requires ParseValue(lex, s, k + 1, depth + 1) == Ok(ms[0].value, k2) && lex.token(s, k2) == Ok('}', k2 + 1)
    requires lex.put(data, ms[0]) == data + [ms[0]] && depth + 1 + Nesting(ms[0].value) <= MAX_DEPTH
    ensures ParseMembers(lex, s, i, '\"', depth, data) == MembersExpectation(ms, data, k2 + 1, depth)
  {
    MembersStep(lex, s, i, depth, data, ms[0], k, k2, '}');
    assert data + [ms[0]] == data + ms;
    assert NestingOfMembers(ms[1..]) == 0;
  }

  lemma NotLastMember(lex: Lexer, s: Bytes, i: nat, k: nat, k2: nat, ms: seq<Member>, data: seq<Member>, depth: nat, end: nat)
    requires |ms| > 1 && lex.Advances() && i <= |s| && k + 1 <= |s| && k2 + 3 <= |s|
    requires lex.text(s, i) == Ok(ms[0].key, k) && lex.token(s, k) == Ok(':', k + 1)
    requires ParseValue(lex, s, k + 1, depth + 1) == Ok(ms[0].value, k2) && lex.token(s, k2) == Ok(',', k2 + 1)
    requires lex.token(s, k2 + 1) == Ok('\"', k2 + 3)
    requires lex.put(data, ms[0]) == data + [ms[0]] && depth + 1 + Nesting(ms[0].value) <= MAX_DEPTH
    requires ParseMembers(lex, s, k2 + 3, '\"', depth, data + [ms[0]]) ==
             MembersExpectation(ms[1..], data + [ms[0]], end, depth)
    ensures ParseMembers(lex, s, i, '\"', depth, data) == MembersExpectation(ms, data, end, depth)
  {
    MembersStep(lex, s, i, depth, data, ms[0], k, k2, ',');
    assert data + [ms[0]] + ms[1..] == data + ms;
  }

  // ---------------------------------------------------------------- the round trip

  /** Parsing the text of a printable value gives the value exactly when it is nested no
      deeper than the limit; a deeper one is refused, never misread. */
  lemma RoundTrip(v: Json)
    requires Printable(v)
    ensures Parse(Text(v)) == if Nesting(v) <= MAX_DEPTH then Ok(v, |Text(v)|) else Fail(TooDeep)
  {
    var s := Text(v);
    assert s[0..0 + |s|] == s;
    JsonReads();
    ReadValue(JSON, TEXT, s, 0, v, 0);
  }

  /** A stream of values, each on its own line. */
  function Lines(vs: seq<Json>): Bytes {
    if vs == [] then [] else Text(vs[0]) + ("\n" + Lines(vs[1..]))
  }

  lemma SkipLineEnd(s: Bytes, k: nat, rest: Bytes)
    requires At(s, k, "\n" + rest) && (rest == [] ==> k + 1 == |s|) && (rest != [] ==> !IsSpace(rest[0]))
    ensures k < |s| && SkipSpace(s, k) == k + 1 && At(s, k + 1, rest)
  {
    AtByte(s, k, "\n" + rest, 0);
    AtSplit(s, k, "\n", rest);
    if rest != [] { AtByte(s, k + 1, rest, 0); }
    assert SkipSpace(s, k + 1) == k + 1;
  }

  /** The lines that follow start with the next value, or not at all. */
  lemma LinesStart(vs: seq<Json>)
    requires vs != [] ==> Printable(vs[0])
    ensures Lines(vs) != [] ==> !IsSpace(Lines(vs)[0])
  {
    if vs != [] {
      JsonReads();
      var c, tail := FirstOfValue(JSON, TEXT, vs[0]);
      assert Lines(vs)[0] == c;
    }
  }

  /** One line of a stream. */
  lemma SplitLine(s: Bytes, i: nat, vs: seq<Json>)
    requires vs != [] && At(s, i, Lines(vs)) && i + |Lines(vs)| == |s| && (|vs| > 1 ==> Printable(vs[1]))
    ensures var k := i + |Text(vs[0])|;
            && At(s, i, Text(vs[0])) && k < |s| && s[k] == '\n' && SkipSpace(s, k) == k + 1
            && At(s, k + 1, Lines(vs[1..])) && k + 1 + |Lines(vs[1..])| == |s|
  {
    var k, rest := i + |Text(vs[0])|, Lines(vs[1..]);
    AtSplit(s, i, Text(vs[0]), "\n" + rest);
    AtByte(s, k, "\n" + rest, 0);
    LinesStart(vs[1..]);
    SkipLineEnd(s, k, rest);
  }

  lemma ReadFirst(s: Bytes, i: nat, v: Json)
    requires At(s, i, Text(v)) && Delimited(s, i + |Text(v)|) && Printable(v) && Nesting(v) <= MAX_DEPTH
    ensures JSON.Advances() && ParseValue(JSON, s, i, 0) == Ok(v, i + |Text(v)|)
  {
    JsonReads();
    ReadValue(JSON, TEXT, s, i, v, 0);
  }

  lemma FirstOfStream(s: Bytes, i: nat, v: Json, k: nat)
    requires At(s, i, Text(v)) && k == i + |Text(v)| && k < |s| && s[k] == '\n' && SkipSpace(s, k) == k + 1
    requires Printable(v) && Nesting(v) <= MAX_DEPTH
    ensures ParseAll(s, i) == ([v] + ParseAll(s, k + 1).0, ParseAll(s, k + 1).1)
  {
    ReadFirst(s, i, v);
    ParseAllStep(s, i, v, k);
  }

  lemma ParseAllStep(s: Bytes, i: nat, v: Json, k: nat)
    requires JSON.Advances() && i < |s| && ParseValue(JSON, s, i, 0) == Ok(v, k) && k < |s| && SkipSpace(s, k) == k + 1
    ensures ParseAll(s, i) == ([v] + ParseAll(s, k + 1).0, ParseAll(s, k + 1).1)
  {
  }

  /** `parse_multi` reads back a stream of values. */
  lemma {:induction false} StreamRoundTrip(s: Bytes, i: nat, vs: seq<Json>)
    requires At(s, i, Lines(vs)) && i + |Lines(vs)| == |s|
    requires forall j :: 0 <= j < |vs| ==> Printable(vs[j]) && Nesting(vs[j]) <= MAX_DEPTH
    ensures ParseAll(s, i) == (vs, None)
    decreases |vs|
  {
    if vs != [] {
      var k := i + |Text(vs[0])|;
      SplitLine(s, i, vs);
      FirstOfStream(s, i, vs[0], k);
      StreamRoundTrip(s, k + 1, vs[1..]);
      assert [vs[0]] + vs[1..] == vs;
    }
  }
}
