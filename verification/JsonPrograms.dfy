/** The JSON printer and parser as the loops of json11.cpp (43-128, 328-673). */
module JsonPrograms {
  import opened Basics
  import opened Decimals
  import opened JsonText
  import opened JsonParsing

  // ---------------------------------------------------------------- printing

  method DumpString(value: Bytes, out: Bytes) returns (out': Bytes)
    ensures out' == out + Quoted(value)
  {
    out' := out + "\"";
    var i := 0;
    assert value[0..] == value;
    while i < |value|
      invariant 0 <= i <= |value|
      invariant out' + Escape(value[i..]) == out + "\"" + Escape(value)
    {
      var rest := value[i..];
      if StartsWithSeparator(rest) {
        var text: Bytes := if rest[2] == 0xa8 as char then "\\u2028" else "\\u2029";
        assert rest[3..] == value[i + 3..];
        Assoc(out', text, Escape(rest[3..]));
        out' := out' + text;
        i := i + 3;
      } else {
        assert rest[1..] == value[i + 1..];
        Assoc(out', EscapeByte(value[i]), Escape(rest[1..]));
        out' := out' + EscapeByte(value[i]);
        i := i + 1;
      }
    }
    assert Escape(value[i..]) == [];
    assert out' == out + "\"" + Escape(value);
    Assoc(out, "\"", Escape(value));
    Assoc(out, "\"" + Escape(value), "\"");
    out' := out' + "\"";
  }

  method DumpValue(v: Json, out: Bytes) returns (out': Bytes)
    ensures out' == out + Text(v)
    decreases v, 0
  {
    if v.String? {
      out' := DumpString(v.s, out);
    } else if v.Array? {
      out' := DumpArray(v.items, out);
    } else if v.Object? {
      out' := DumpObject(v.members, out);
    } else {
      out' := out + ScalarText(v);
    }
  }

  /** What is still to be printed of a list. */
  function Rest(items: seq<Json>, first: bool): Bytes {
    if first then DumpItems(TEXT, items) else MoreItems(TEXT, items)
  }

  method DumpArray(items: seq<Json>, out: Bytes) returns (out': Bytes)
    ensures out' == out + Text(Array(items))
    decreases items, 0
  {
    out' := out + "[";
    ghost var whole := out' + DumpItems(TEXT, items);
    var first := true;
    assert items[0..] == items;
    for k := 0 to |items|
      invariant out' + Rest(items[k..], first) == whole
    {
      assert items[k..][0] == items[k] && items[k..][1..] == items[k + 1..];
      ghost var more := MoreItems(TEXT, items[k + 1..]);
      if !first {
        Assoc(", ", Text(items[k]), more);
        Assoc(out', ", ", Text(items[k]) + more);
        out' := out' + ", ";
      }
      Assoc(out', Text(items[k]), more);
      out' := DumpValue(items[k], out');
      first := false;
    }
    assert Rest(items[|items|..], first) == [];
    assert out' == whole;
    Assoc(out, "[", DumpItems(TEXT, items));
    Assoc(out, "[" + DumpItems(TEXT, items), "]");
    out' := out' + "]";
  }

  function RestOfObject(ms: seq<Member>, first: bool): Bytes {
    if first then DumpMembers(TEXT, ms) else MoreMembers(TEXT, ms)
  }

  method DumpEntry(m: Member, out: Bytes) returns (out': Bytes)
    ensures out' == out + DumpMember(TEXT, m)
    decreases m, 0
  {
    out' := DumpString(m.key, out);
    Assoc(out, Quoted(m.key), ": ");
    out' := out' + ": ";
    Assoc(out, Quoted(m.key) + ": ", Text(m.value));
    out' := DumpValue(m.value, out');
  }

  method DumpObject(ms: seq<Member>, out: Bytes) returns (out': Bytes)
    ensures out' == out + Text(Object(ms))
    decreases ms, 0
  {
    out' := out + "{";
    ghost var whole := out' + DumpMembers(TEXT, ms);
    var first := true;
    assert ms[0..] == ms;
    for k := 0 to |ms|
      invariant out' + RestOfObject(ms[k..], first) == whole
    {
      assert ms[k..][0] == ms[k] && ms[k..][1..] == ms[k + 1..];
      ghost var text, more := DumpMember(TEXT, ms[k]), MoreMembers(TEXT, ms[k + 1..]);
      if !first {
        Assoc(", ", text, more);
        Assoc(out', ", ", text + more);
        out' := out' + ", ";
      }
      Assoc(out', text, more);
      out' := DumpEntry(ms[k], out');
      first := false;
    }
    assert RestOfObject(ms[|ms|..], first) == [];
    assert out' == whole;
    Assoc(out, "{", DumpMembers(TEXT, ms));
    Assoc(out, "{" + DumpMembers(TEXT, ms), "}");
    out' := out' + "}";
  }

  // ---------------------------------------------------------------- parsing

  /** A list after one of its items. */
  ghost function AfterItem(s: Bytes, k: nat, depth: nat, data: seq<Json>): Result<Json>
    requires JSON.Advances() && k <= |s|
  {
    match NextToken(s, k)
    case Fail(e) => Fail(e)
    case Ok(sep, k1) =>
      if sep == ']' then Ok(Array(data), k1)
      else if sep != ',' then Fail(NoCommaInList(sep))
      else
        match NextToken(s, k1)
        case Fail(e) => Fail(e)
        case Ok(_, k2) => ParseItems(JSON, s, k2 - 1, depth, data)
  }

  ghost function AfterMember(s: Bytes, k: nat, depth: nat, data: seq<Member>): Result<Json>
    requires JSON.Advances() && k <= |s|
  {
    match NextToken(s, k)
    case Fail(e) => Fail(e)
    case Ok(sep, k1) =>
      if sep == '}' then Ok(Object(data), k1)
      else if sep != ',' then Fail(NoCommaInObject(sep))
      else
        match NextToken(s, k1)
        case Fail(e) => Fail(e)
        case Ok(c, k2) => ParseMembers(JSON, s, k2, c, depth, data)
  }

  ghost function AfterKey(s: Bytes, k: nat, depth: nat, data: seq<Member>, key: Bytes): Result<Json>
    requires JSON.Advances() && k <= |s|
  {
    match NextToken(s, k)
    case Fail(e) => Fail(e)
    case Ok(colon, k1) =>
      if colon != ':' then Fail(NoColon(colon))
      else
        match ParseValue(JSON, s, k1, depth + 1)
        case Fail(e) => Fail(e)
        case Ok(v, k2) => AfterMember(s, k2, depth, Insert(data, Member(key, v)))
  }

  lemma KeyThenRest(s: Bytes, i: nat, c: char, depth: nat, data: seq<Member>)
    requires JSON.Advances() && i <= |s|
    ensures c != '\"' ==> ParseMembers(JSON, s, i, c, depth, data) == Fail(NoKey(c))
    ensures c == '\"' ==>
              var key := ParseString(s, i, [], NO_CODE_POINT);
              ParseMembers(JSON, s, i, c, depth, data) ==
              if key.Fail? then Fail(key.error) else AfterKey(s, key.next, depth, data, key.value)
  {
  }

  lemma ItemThenRest(s: Bytes, i: nat, depth: nat, data: seq<Json>)
    requires JSON.Advances() && i <= |s|
    ensures ParseItems(JSON, s, i, depth, data) ==
            match ParseValue(JSON, s, i, depth + 1)
            case Fail(e) => Fail(e)
            case Ok(v, k) => AfterItem(s, k, depth, data + [v])
  {
  }

  class JsonParser {
    const str: Bytes
    var i: nat
    var err: Option<Error>
    var failed: bool

    ghost predicate Valid()
      reads this
    {
      i <= |str| && (failed <==> err.Some?)
    }

    constructor (str: Bytes)
      ensures this.str == str && i == 0 && !failed
      ensures Valid()
    {
      this.str := str;
      i := 0;
      err := None;
      failed := false;
    }

    /** The parser stands where the function says, or has failed as it says. */
    ghost predicate Did<T>(r: Result<T>, value: T)
      reads this
    {
      Valid() &&
      match r
      case Ok(v, k) => !failed && value == v && i == k
      case Fail(e) => failed && err == Some(e)
    }

    /** Only the first error is kept. */
    method Report(e: Error)
      requires Valid()
      modifies this`err, this`failed
      ensures Valid() && failed
      ensures err == if old(failed) then old(err) else Some(e)
    {
      if !failed {
        err := Some(e);
      }
      failed := true;
    }

    method ConsumeWhitespace()
      requires Valid()
      modifies this`i
      ensures Valid() && i == SkipSpace(str, old(i))
    {
      while IsSpace(CharAt(str, i))
        invariant i <= |str| && SkipSpace(str, i) == SkipSpace(str, old(i))
        decreases |str| - i
      {
        i := i + 1;
      }
    }

    method GetNextToken() returns (c: char)
      requires Valid()
      modifies this
      ensures Valid() && old(i) <= i
      ensures old(failed) ==> failed && err == old(err)
      ensures !old(failed) ==>
                match NextToken(str, old(i))
                case Ok(t, k) => !failed && c == t && i == k
                case Fail(e) => failed && err == Some(e) && c == 0 as char
    {
      ConsumeWhitespace();
      if i == |str| {
        Report(UnexpectedEnd);
        return 0 as char;
      }
      c := str[i];
      i := i + 1;
    }

    /** After the opening quote. */
    method ParseText() returns (out: Bytes)
      requires Valid() && !failed
      modifies this
      ensures Did(ParseString(str, old(i), [], NO_CODE_POINT), out)
    {
      ghost var target := ParseString(str, i, [], NO_CODE_POINT);
      out := [];
      var last := NO_CODE_POINT;
      while true
        invariant Valid() && !failed && NO_CODE_POINT <= last <= 0xffff
        invariant ParseString(str, i, out, last) == target
        decreases |str| - i
      {
        if i == |str| {
          Report(EndInString);
          return;
        }
        var ch := str[i];
        i := i + 1;
        if ch == '\"' {
          out := out + Utf8(last);
          return;
        }
        if ch as int <= 0x1f {
          Report(Unescaped(ch));
          return;
        }
        if ch != '\\' {
          out := out + Utf8(last) + [ch];
          last := NO_CODE_POINT;
          continue;
        }
        if i == |str| {
          Report(EndInString);
          return;
        }
        ch := str[i];
        i := i + 1;
        if ch == 'u' {
          var pt := Hex4(str, i);
          if pt < 0 {
            Report(BadEscape);
            return;
          }
          if IsHighSurrogate(last) && IsLowSurrogate(pt) {
            out := out + Utf8((last - 0xd800) * 0x400 + (pt - 0xdc00) + 0x10000);
            last := NO_CODE_POINT;
          } else {
            out := out + Utf8(last);
            last := pt;
          }
          i := i + 4;
          continue;
        }
        var c := SimpleEscape(ch);
        if c < 0 {
          Report(InvalidEscape(ch));
          return;
        }
        out := out + Utf8(last) + [c as char];
        last := NO_CODE_POINT;
      }
    }

    method ConsumeDigits()
      requires Valid()
      modifies this`i
      ensures Valid() && i == SkipDigits(str, old(i))
    {
      while IsDigit(CharAt(str, i))
        invariant i <= |str| && SkipDigits(str, i) == SkipDigits(str, old(i))
        decreases |str| - i
      {
        i := i + 1;
      }
    }

    method ParseIntegral()
      requires Valid() && !failed
      modifies this
      ensures Did(ParseIntegerPart(str, old(i)), ())
    {
      if CharAt(str, i) == '0' {
        i := i + 1;
        if IsDigit(CharAt(str, i)) {
          Report(LeadingZero);
        }
      } else if IsDigit(CharAt(str, i)) {
        i := i + 1;
        ConsumeDigits();
      } else {
        Report(InvalidNumber(CharAt(str, i)));
      }
    }

    method ParseDecimals()
      requires Valid() && !failed
      modifies this
      ensures Did(ParseFraction(str, old(i)), ())
    {
      if CharAt(str, i) == '.' {
        i := i + 1;
        if !IsDigit(CharAt(str, i)) {
          Report(NoFraction);
          return;
        }
        ConsumeDigits();
      }
    }

    method ParsePower()
      requires Valid() && !failed
      modifies this
      ensures Did(ParseExponent(str, old(i)), ())
    {
      if CharAt(str, i) == 'e' || CharAt(str, i) == 'E' {
        i := i + 1;
        if CharAt(str, i) == '+' || CharAt(str, i) == '-' {
          i := i + 1;
        }
        if !IsDigit(CharAt(str, i)) {
          Report(NoExponent);
          return;
        }
        ConsumeDigits();
      }
    }

    method ParseNumeral() returns (v: Json)
      requires Valid() && !failed
      modifies this
      ensures Did(ParseNumber(str, old(i)), v)
    {
      v := Null;
      var start := i;
      if CharAt(str, i) == '-' {
        i := i + 1;
      }
      var first := i;
      ParseIntegral();
      if failed {
        return;
      }
      if CharAt(str, i) != '.' && CharAt(str, i) != 'e' && CharAt(str, i) != 'E' {
        var n := DigitsValue(str, first, i);
        n := if first > start then -n else n;
        v := if i - start <= DIGITS10 || -EXACT_DOUBLE <= n <= EXACT_DOUBLE then Number(n) else Double(str[start..i]);
        return;
      }
      ParseDecimals();
      if failed {
        return;
      }
      ParsePower();
      if failed {
        return;
      }
      v := Double(str[start..i]);
    }

    /** The word that starts at the character just read. */
    method Expect(word: Bytes, v: Json) returns (r: Json)
      requires Valid() && !failed && i > 0 && word != []
      modifies this
      ensures Did(ExpectWord(str, old(i) - 1, word, v), r)
    {
      r := Null;
      i := i - 1;
      if i + |word| <= |str| && str[i..i + |word|] == word {
        i := i + |word|;
        r := v;
      } else {
        Report(Expected(word));
      }
    }

    /** A scalar whose first character c has just been read. */
    method ParseSimple(c: char) returns (v: Json)
      requires Valid() && !failed && i > 0
      modifies this
      ensures Did(ParseScalar(str, old(i), c), v)
    {
      if c == '-' || IsDigit(c) {
        i := i - 1;
        v := ParseNumeral();
      } else if c == 't' {
        v := Expect("true", Bool(true));
      } else if c == 'f' {
        v := Expect("false", Bool(false));
      } else if c == 'n' {
        v := Expect("null", Null);
      } else if c == '\"' {
        var text := ParseText();
        v := String(text);
      } else {
        Report(NoValue(c));
        v := Null;
      }
    }

    /** One value.  A parser that has failed already may be called once more: after the
        rewind of a list it is.  Then it only keeps its error. */
    method ParseJson(depth: nat) returns (v: Json)
      requires Valid()
      modifies this
      ensures Valid()
      ensures old(failed) ==> failed && err == old(err)
      ensures JSON.Advances()
      ensures !old(failed) ==> Did(ParseValue(JSON, str, old(i), depth), v)
      decreases !failed, |str| - i, 1
    {
      JsonAdvances();
      v := Null;
      if depth > MAX_DEPTH {
        Report(TooDeep);
        return;
      }
      var c := GetNextToken();
      if failed {
        return;
      }
      if c == '{' {
        v := ParseBraces(depth);
      } else if c == '[' {
        v := ParseBrackets(depth);
      } else {
        v := ParseSimple(c);
      }
    }

    /** The members of an object, after the opening brace. */
    method ParseBraces(depth: nat) returns (v: Json)
      requires Valid() && !failed
      modifies this
      ensures JSON.Advances() && Did(ParseObject(JSON, str, old(i), depth), v)
      decreases !failed, |str| - i, 2
    {
      JsonAdvances();
      v := Null;
      var c := GetNextToken();
      if c == '}' {
        return Object([]);
      }
      ghost var target := ParseObject(JSON, str, old(i), depth);
      var data: seq<Member> := [];
      while true
        invariant Valid() && old(i) <= i
        invariant failed ==> target.Fail? && err == Some(target.error) && c == 0 as char
        invariant !failed ==> old(i) < i && ParseMembers(JSON, str, i, c, depth, data) == target
        decreases |str| - i
      {
        if !failed { KeyThenRest(str, i, c, depth, data); }
        if c != '\"' {
          Report(NoKey(c));
          return;
        }
        var key := ParseText();
        if failed {
          return;
        }
        data := ParseMember(depth, data, key, target);
        if failed {
          return;
        }
        var closed;
        closed, v, c := AfterObjectMember(depth, data);
        if closed {
          return;
        }
      }
    }

    /** The colon and the value of a member. */
    method ParseMember(depth: nat, data: seq<Member>, key: Bytes, ghost target: Result<Json>) returns (data': seq<Member>)
      requires Valid() && !failed && JSON.Advances() && AfterKey(str, i, depth, data, key) == target
      modifies this
      ensures Valid()
      ensures failed ==> Did(target, Null)
      ensures !failed ==> old(i) <= i && AfterMember(str, i, depth, data') == target
      decreases !failed, |str| - i + 1, 2
    {
      data' := data;
      var c := GetNextToken();
      if c != ':' {
        Report(NoColon(c));
        return;
      }
      var value := ParseJson(depth + 1);
      data' := Insert(data, Member(key, value));
    }

    /** The separator after a member: a closed object, an error, or the quote of the next key. */
    method AfterObjectMember(depth: nat, data: seq<Member>) returns (closed: bool, v: Json, c: char)
      requires Valid() && !failed && JSON.Advances()
      modifies this
      ensures Valid() && old(i) <= i
      ensures closed ==> Did(AfterMember(str, old(i), depth, data), v)
      ensures !closed && failed ==> old(i) < i && c == 0 as char && AfterMember(str, old(i), depth, data) == Fail(err.value)
      ensures !closed && !failed ==>
                old(i) < i && AfterMember(str, old(i), depth, data) == ParseMembers(JSON, str, i, c, depth, data)
    {
      closed, v := true, Null;
      c := GetNextToken();
      if c == '}' {
        return true, Object(data), c;
      }
      if c != ',' {
        Report(NoCommaInObject(c));
        return;
      }
      c := GetNextToken();
      closed := false;
    }

    /** The items of a list, after the opening bracket. */
    method ParseBrackets(depth: nat) returns (v: Json)
      requires Valid() && !failed && i > 0
      modifies this
      ensures JSON.Advances() && Did(ParseList(JSON, str, old(i), depth), v)
      decreases !failed, |str| - i, 4
    {
      JsonAdvances();
      v := Null;
      var c := GetNextToken();
      if c == ']' {
        return Array([]);
      }
      v := ParseListItems(depth, ParseList(JSON, str, old(i), depth));
    }

    /** The loop over the items, each time from just behind the first character of one. */
    method ParseListItems(depth: nat, ghost target: Result<Json>) returns (v: Json)
      requires Valid() && i > 0 && JSON.Advances()
      requires failed ==> target.Fail? && err == Some(target.error)
      requires !failed ==> ParseItems(JSON, str, i - 1, depth, []) == target
      modifies this
      ensures Did(target, v)
      decreases !failed, |str| - i + 1, 3
    {
      var data: seq<Json> := [];
      var done := false;
      v := Null;
      while !done
        invariant Valid()
        invariant !done ==> 0 < old(i) <= i
        invariant done ==> Did(target, v)
        invariant !done && failed ==> target.Fail? && err == Some(target.error)
        invariant !done && !failed ==> !old(failed) && ParseItems(JSON, str, i - 1, depth, data) == target
        decreases !done, |str| - i
      {
        data := ParseListItem(depth, data, target);
        if failed {
          return;
        }
        done, v := AfterListItem(depth, data);
      }
    }

    /** The item itself, read from its first character on. */
    method ParseListItem(depth: nat, data: seq<Json>, ghost target: Result<Json>) returns (data': seq<Json>)
      requires Valid() && i > 0 && JSON.Advances()
      requires failed ==> target.Fail? && err == Some(target.error)
      requires !failed ==> ParseItems(JSON, str, i - 1, depth, data) == target
      modifies this
      ensures Valid()
      ensures failed ==> Did(target, Null)
      ensures !failed ==> !old(failed) && old(i) <= i && AfterItem(str, i, depth, data') == target
      decreases !failed, |str| - i + 1, 2
    {
      i := i - 1;
      ItemThenRest(str, i, depth, data);
      var item := ParseJson(depth + 1);
      data' := data + [item];
    }

    /** The separator after an item: a closed list, an error, or the next item. */
    method AfterListItem(depth: nat, data: seq<Json>) returns (closed: bool, v: Json)
      requires Valid() && !failed && JSON.Advances()
      modifies this
      ensures Valid() && old(i) <= i
      ensures closed ==> Did(AfterItem(str, old(i), depth, data), v)
      ensures !closed && failed ==> old(i) < i && AfterItem(str, old(i), depth, data) == Fail(err.value)
      ensures !closed && !failed ==>
                old(i) + 1 < i && AfterItem(str, old(i), depth, data) == ParseItems(JSON, str, i - 1, depth, data)
    {
      closed, v := true, Null;
      var c := GetNextToken();
      if c == ']' {
        return true, Array(data);
      }
      if c != ',' {
        Report(NoCommaInList(c));
        return;
      }
      c := GetNextToken();
      closed := false;
    }
  }

  method ParseDocument(text: Bytes) returns (v: Json, err: Option<Error>)
    ensures match Parse(text)
            case Ok(w, _) => err == None && v == w
            case Fail(e) => err == Some(e)
  {
    var parser := new JsonParser(text);
    v := parser.ParseJson(0);
    parser.ConsumeWhitespace();
    if parser.i != |text| {
      parser.Report(Trailing(text[parser.i]));
    }
    err := parser.err;
  }

  /** The whole stream is what has been read, then what is still to be read from i on. */
  ghost predicate ReadSoFar(whole: (seq<Json>, Option<Error>), vs: seq<Json>, text: Bytes, i: nat) {
    i <= |text| && whole.0 == vs + ParseAll(text, i).0 && whole.1 == ParseAll(text, i).1
  }

  lemma ReadOneMore(whole: (seq<Json>, Option<Error>), vs: seq<Json>, text: Bytes, i: nat)
    requires ReadSoFar(whole, vs, text, i) && i < |text|
    ensures JSON.Advances()
    ensures match ParseValue(JSON, text, i, 0)
            case Ok(v, k) => k <= |text| && ReadSoFar(whole, vs + [v], text, SkipSpace(text, k))
            case Fail(e) => whole.0 == vs && whole.1 == Some(e)
  {
    JsonAdvances();
    match ParseValue(JSON, text, i, 0)
    case Ok(v, k) =>
      var rest := ParseAll(text, SkipSpace(text, k)).0;
      assert vs + ([v] + rest) == vs + [v] + rest;
    case Fail(e) =>
      assert vs + [] == vs;
  }

  /** On an error the last element stands for the value that could not be read. */
  method ParseStream(text: Bytes) returns (vs: seq<Json>, err: Option<Error>)
    ensures var (values, error) := ParseAll(text, 0);
            && err == error
            && (error == None ==> vs == values)
            && (error.Some? ==> |vs| == |values| + 1 && vs[..|values|] == values)
  {
    var parser := new JsonParser(text);
    vs := [];
    ghost var whole := ParseAll(text, 0);
    while parser.i != |text| && !parser.failed
      invariant fresh(parser) && parser.Valid() && parser.str == text
      invariant !parser.failed ==> ReadSoFar(whole, vs, text, parser.i)
      invariant parser.failed ==>
                  whole.1 == parser.err && |vs| == |whole.0| + 1 && vs[..|whole.0|] == whole.0
      decreases !parser.failed, |text| - parser.i
    {
      ReadOneMore(whole, vs, text, parser.i);
      var v := parser.ParseJson(0);
      parser.ConsumeWhitespace();
      vs := vs + [v];
    }
    err := parser.err;
  }
}
