/** JSON texts as RFC 8259 defines them, and what the parser and the printer make of them
    (json11.cpp:43-128, 563-673).  */
module JsonDocuments {
  import opened Basics
  import opened Decimals
  import opened JsonText
  import opened JsonParsing
  import opened JsonStrings
  import opened JsonNumbers
  import opened JsonGrammar
  import opened JsonRoundTrip

  // ---------------------------------------------------------------- members of an object

  /** The first n bytes agree, and there a ends or has the smaller byte. */
  ghost predicate SmallerAt(a: Bytes, b: Bytes, n: nat) {
    && n <= |a| && n < |b| && a[..n] == b[..n]
    && (n == |a| || a[n] < b[n])
  }

  /** Keys are in dictionary order. */
  lemma {:induction false} LessIffSmaller(a: Bytes, b: Bytes)
    ensures Less(a, b) <==> exists n: nat :: SmallerAt(a, b, n)
    decreases |a|
  {
    if a == [] || b == [] || a[0] != b[0] {
      if Less(a, b) { assert SmallerAt(a, b, 0); }
    } else {
      LessIffSmaller(a[1..], b[1..]);
      if n: nat :| SmallerAt(a, b, n) {
        assert n > 0 && a[1..][..n - 1] == a[..n][1..] && b[1..][..n - 1] == b[..n][1..];
        assert SmallerAt(a[1..], b[1..], n - 1);
      }
      if n: nat :| SmallerAt(a[1..], b[1..], n) {
        assert a[..n + 1] == [a[0]] + a[1..][..n] && b[..n + 1] == [b[0]] + b[1..][..n];
        assert SmallerAt(a, b, n + 1);
      }
    }
  }

  lemma {:induction false} LessIsTotal(a: Bytes, b: Bytes)
    ensures a == b || Less(a, b) || Less(b, a)
    decreases |a|
  {
    if a != [] && b != [] && a[0] == b[0] {
      LessIsTotal(a[1..], b[1..]);
      assert a == [a[0]] + a[1..] && b == [b[0]] + b[1..];
    }
  }

  lemma {:induction false} LessIsTransitive(a: Bytes, b: Bytes, c: Bytes)
    requires Less(a, b) && Less(b, c)
    ensures Less(a, c)
    decreases |a|
  {
    if a != [] && a[0] == b[0] && b[0] == c[0] { LessIsTransitive(a[1..], b[1..], c[1..]); }
  }

  /** The member stands in the text, and none of its key comes later. */
  ghost predicate IsLast(ms: seq<Member>, m: Member) {
    exists j :: 0 <= j < |ms| && ms[j] == m && forall l :: j < l < |ms| ==> ms[l].key != m.key
  }

  /** Of equal keys the last one counts, and the keys ascend. */
  ghost predicate LastWins(ms: seq<Member>, out: seq<Member>) {
    SortedByKey(out) && forall m :: m in out <==> IsLast(ms, m)
  }

  ghost predicate HasKey(ms: seq<Member>, key: Bytes) { exists j :: 0 <= j < |ms| && ms[j].key == key }

  lemma {:induction false} InsertKeepsOrder(ms: seq<Member>, m: Member)
    requires SortedByKey(ms)
    ensures SortedByKey(Insert(ms, m))
    ensures forall x :: x in Insert(ms, m) <==> x == m || (x in ms && x.key != m.key)
  {
    if ms != [] {
      var first := ms[0].key;
      assert forall x :: x in ms <==> x == ms[0] || x in ms[1..];
      forall x | x in ms[1..] ensures Less(first, x.key) && x.key != first {
        LessIsStrict(first, x.key);
      }
      LessIsTotal(first, m.key);
      if first == m.key {
      } else if Less(m.key, first) {
        LessIsStrict(m.key, first);
        forall x | x in ms[1..] ensures Less(m.key, x.key) && x.key != m.key {
          LessIsTransitive(m.key, first, x.key);
          LessIsStrict(m.key, x.key);
        }
      } else {
        InsertKeepsOrder(ms[1..], m);
        assert forall x :: x in Insert(ms[1..], m) ==> Less(first, x.key);
      }
    }
  }

  lemma {:induction false} PutAllKeepsLast(data: seq<Member>, ms: seq<Member>)
    requires SortedByKey(data)
    ensures SortedByKey(PutAll(JSON, data, ms))
    ensures forall x :: x in PutAll(JSON, data, ms) <==> IsLast(ms, x) || (x in data && !HasKey(ms, x.key))
    decreases |ms|
  {
    if ms != [] {
      InsertKeepsOrder(data, ms[0]);
      PutAllKeepsLast(Insert(data, ms[0]), ms[1..]);
      forall x
        ensures IsLast(ms, x) <==> IsLast(ms[1..], x) || (x == ms[0] && !HasKey(ms[1..], x.key))
        ensures HasKey(ms, x.key) <==> ms[0].key == x.key || HasKey(ms[1..], x.key)
      {
        LastOfMore(ms, x);
      }
    }
  }

  lemma LastOfMore(ms: seq<Member>, x: Member)
    requires ms != []
    ensures IsLast(ms, x) <==> IsLast(ms[1..], x) || (x == ms[0] && !HasKey(ms[1..], x.key))
    ensures HasKey(ms, x.key) <==> ms[0].key == x.key || HasKey(ms[1..], x.key)
  {
    var rest := ms[1..];
    assert forall l :: 0 < l < |ms| ==> ms[l] == rest[l - 1];
    assert forall l :: 0 <= l < |rest| ==> rest[l] == ms[l + 1];
  }

  lemma {:induction false} SortedIsUnique(a: seq<Member>, b: seq<Member>)
    requires SortedByKey(a) && SortedByKey(b) && forall m :: m in a <==> m in b
    ensures a == b
  {
    assert a != [] ==> a[0] in b;
    assert b != [] ==> b[0] in a;
    if a != [] {
      var i, j :| 0 <= i < |a| && a[i] == b[0] && 0 <= j < |b| && b[j] == a[0];
      if i > 0 && j > 0 { LessIsStrict(a[0].key, b[0].key); }
      assert a[0] == b[0];
      forall m | m in a[1..] || m in b[1..] ensures m != a[0] { LessIsStrict(a[0].key, m.key); }
      assert forall m :: m in a <==> m == a[0] || m in a[1..];
      assert forall m :: m in b <==> m == b[0] || m in b[1..];
      SortedIsUnique(a[1..], b[1..]);
    }
  }

  /** An object stores of every key the value that is written last, in the order of the keys. */
  lemma StoresExactlyLast(ms: seq<Member>, out: seq<Member>)
    ensures out == PutAll(JSON, [], ms) <==> LastWins(ms, out)
  {
    PutAllKeepsLast([], ms);
    if LastWins(ms, out) { SortedIsUnique(out, PutAll(JSON, [], ms)); }
  }

  // ---------------------------------------------------------------- scalars

  ghost predicate WordAt(s: Bytes, j: nat, k: nat, word: Bytes) { j <= k <= |s| && s[j..k] == word }

  /** A number, one of the three words, or a string behind its quote. */
  ghost predicate ScalarAt(s: Bytes, j: nat, k: nat, v: Json) {
    || NumberAt(s, j, k, v)
    || (WordAt(s, j, k, "true") && v == Bool(true))
    || (WordAt(s, j, k, "false") && v == Bool(false))
    || (WordAt(s, j, k, "null") && v == Null)
    || (CharIs(s, j, '\"') && v.String? && StringAt(s, j + 1, k, v.s))
  }

  lemma NumberStarts(s: Bytes, j: nat, k: nat, v: Json)
    requires NumberAt(s, j, k, v)
    ensures j < |s| && (s[j] == '-' || IsDigit(s[j]))
  {
  }

  lemma ReadsExactlyWord(s: Bytes, j: nat, k: nat, word: Bytes, v: Json)
    requires j < |s| && word != []
    ensures ExpectWord(s, j, word, v) == Ok(v, k) <==> WordAt(s, j, k, word)
    ensures WordAt(s, j, k, word) ==> s[j] == word[0]
  {
    if WordAt(s, j, k, word) { assert s[j..k][0] == s[j]; }
  }

  lemma ReadsExactlyScalars(s: Bytes, j: nat, k: nat, v: Json)
    requires j < |s|
    ensures ParseScalar(s, j + 1, s[j]) == Ok(v, k) <==> ScalarAt(s, j, k, v)
    ensures ScalarAt(s, j, k, v) ==> s[j] != ']' && s[j] != '}'
  {
    if NumberAt(s, j, k, v) { NumberStarts(s, j, k, v); }
    ReadsExactlyNumbers(s, j, k, v);
    ReadsExactlyWord(s, j, k, "true", Bool(true));
    ReadsExactlyWord(s, j, k, "false", Bool(false));
    ReadsExactlyWord(s, j, k, "null", Null);
    if v.String? { ReadsExactlyStrings(s, j + 1, k, v.s); }
  }

  // ---------------------------------------------------------------- documents

  ghost const RFC8259 := Lexemes(
    (s: Bytes, i: nat, k: nat, v: Bytes) => StringAt(s, i, k, v),
    (s: Bytes, j: nat, k: nat, v: Json) => ScalarAt(s, j, k, v),
    (ms: seq<Member>, out: seq<Member>) => LastWins(ms, out))

  lemma JsonIsExact()
    ensures Exact(JSON, RFC8259)
  {
    JsonAdvances();
    forall s, i: nat, c, k: nat ensures TokenExact(JSON, s, i, c, k) {
      if i <= |s| { ReadsExactlyTokens(s, i, c, k); }
    }
    forall s, i: nat, v, k: nat ensures TextExact(JSON, RFC8259, s, i, v, k) {
      if i <= |s| { ReadsExactlyStrings(s, i, k, v); }
    }
    forall s, j: nat, v, k: nat ensures ScalarExact(JSON, RFC8259, s, j, v, k) {
      if j < |s| { ReadsExactlyScalars(s, j, k, v); }
    }
    forall ms, out ensures StoredExact(JSON, RFC8259, ms, out) {
      StoresExactlyLast(ms, out);
    }
  }

  /** One value and whitespace. */
  ghost predicate DocumentAt(s: Bytes, v: Json) {
    exists k: nat :: ValueAt(RFC8259, s, 0, k, v, 0) && Gap(s, k, |s|)
  }

  lemma {:induction false} ValueIsRead(s: Bytes, i: nat, k: nat, v: Json, depth: nat)
    requires i <= |s|
    ensures JSON.Advances() && (ParseValue(JSON, s, i, depth) == Ok(v, k) <==> ValueAt(RFC8259, s, i, k, v, depth))
  {
    JsonIsExact();
    ReadsExactlyValues(JSON, RFC8259, s, i, k, v, depth);
  }

  /** The parser accepts exactly the texts of RFC 8259 that nest no deeper than 200, and gives
      each the value it stands for. */
  lemma ReadsExactlyDocuments(s: Bytes, v: Json)
    ensures Parse(s) == Ok(v, |s|) <==> DocumentAt(s, v)
    ensures Parse(s).Ok? ==> Parse(s).next == |s|
  {
    JsonAdvances();
    if DocumentAt(s, v) {
      var k: nat :| ValueAt(RFC8259, s, 0, k, v, 0) && Gap(s, k, |s|);
      ValueIsRead(s, 0, k, v, 0);
      SkipsExactlyWhite(s, k, |s|);
    }
    if Parse(s) == Ok(v, |s|) {
      var k := ParseValue(JSON, s, 0, 0).next;
      ValueIsRead(s, 0, k, v, 0);
      SkipsExactlyWhite(s, k, |s|);
    }
  }

  /** Anything else behind the value is named and refused. */
  lemma TrailingIsRefused(s: Bytes, k: nat, v: Json, m: nat)
    requires ValueAt(RFC8259, s, 0, k, v, 0) && m < |s| && Gap(s, k, m) && !IsWhite(s[m])
    ensures Parse(s) == Fail(Trailing(s[m]))
  {
    ValueIsRead(s, 0, k, v, 0);
    SkipsExactlyWhite(s, k, m);
  }

  // ---------------------------------------------------------------- what is refused, and why

  /** A text that ends too early, and a character that starts no value. */
  lemma NoValueIsNamed(s: Bytes, i: nat, depth: nat, c: char, m: nat)
    requires i <= |s| && JSON.Advances() && depth <= 200
    ensures Gap(s, i, |s|) ==> ParseValue(JSON, s, i, depth) == Fail(UnexpectedEnd)
    ensures TokenAfter(s, i, c, m) && !('0' <= c <= '9') && c !in "-tfn\"{[" ==> ParseValue(JSON, s, i, depth) == Fail(NoValue(c))
  {
    SkipsExactlyWhite(s, i, |s|);
    ReadsExactlyTokens(s, i, c, m);
  }

  /** A misspelt word. */
  lemma BadWordIsNamed(s: Bytes, m: nat)
    requires 0 < m <= |s|
    ensures s[m - 1] == 't' && !WordAt(s, m - 1, m + 3, "true") ==> ParseScalar(s, m, s[m - 1]) == Fail(Expected("true"))
    ensures s[m - 1] == 'f' && !WordAt(s, m - 1, m + 4, "false") ==> ParseScalar(s, m, s[m - 1]) == Fail(Expected("false"))
    ensures s[m - 1] == 'n' && !WordAt(s, m - 1, m + 3, "null") ==> ParseScalar(s, m, s[m - 1]) == Fail(Expected("null"))
  {
  }

  /** A value and all the whitespace behind it. */
  ghost predicate OneAt(s: Bytes, i: nat, m: nat, v: Json) {
    m <= |s| && !(m < |s| && IsWhite(s[m])) && exists k: nat :: ValueAt(RFC8259, s, i, k, v, 0) && Gap(s, k, m)
  }

  ghost predicate StreamAt(s: Bytes, i: nat, vs: seq<Json>)
    decreases |vs|
  {
    if vs == [] then i == |s| else exists m: nat :: OneAt(s, i, m, vs[0]) && StreamAt(s, m, vs[1..])
  }

  lemma OneIsRead(s: Bytes, i: nat, m: nat, v: Json)
    requires i <= |s|
    ensures JSON.Advances()
    ensures OneAt(s, i, m, v) <==> var r := ParseValue(JSON, s, i, 0); r.Ok? && r.value == v && SkipSpace(s, r.next) == m
    ensures OneAt(s, i, m, v) ==> i < m
  {
    JsonAdvances();
    if OneAt(s, i, m, v) {
      var k: nat :| ValueAt(RFC8259, s, i, k, v, 0) && Gap(s, k, m);
      ValueIsRead(s, i, k, v, 0);
      SkipsExactlyWhite(s, k, m);
    }
    var r := ParseValue(JSON, s, i, 0);
    if r.Ok? && r.value == v && SkipSpace(s, r.next) == m {
      ValueIsRead(s, i, r.next, v, 0);
      SkipsExactlyWhite(s, r.next, m);
    }
  }

  /** `parse_multi` accepts exactly the sequences of values. */
  lemma {:induction false} ReadsExactlyStreams(s: Bytes, i: nat, vs: seq<Json>)
    requires i <= |s|
    ensures ParseAll(s, i) == (vs, None) <==> StreamAt(s, i, vs)
    decreases |s| - i
  {
    if i < |s| {
      if vs != [] && StreamAt(s, i, vs) {
        var m: nat :| OneAt(s, i, m, vs[0]) && StreamAt(s, m, vs[1..]);
        OneIsRead(s, i, m, vs[0]);
        ReadsExactlyStreams(s, m, vs[1..]);
        assert vs == [vs[0]] + vs[1..];
      }
      if ParseAll(s, i) == (vs, None) {
        JsonAdvances();
        var r := ParseValue(JSON, s, i, 0);
        var m := SkipSpace(s, r.next);
        OneIsRead(s, i, m, r.value);
        ReadsExactlyStreams(s, m, vs[1..]);
        assert OneAt(s, i, m, vs[0]) && StreamAt(s, m, vs[1..]);
      }
    }
  }

  // ---------------------------------------------------------------- what the printer writes

  /** What is printed is a text of RFC 8259, unless it nests too deep to be one for the parser. */
  lemma PrintsDocuments(v: Json)
    requires Printable(v)
    ensures Nesting(v) <= 200 ==> DocumentAt(Text(v), v)
    ensures forall w :: DocumentAt(Text(v), w) ==> w == v && Nesting(v) <= 200
  {
    RoundTrip(v);
    ReadsExactlyDocuments(Text(v), v);
    forall w | DocumentAt(Text(v), w) ensures w == v && Nesting(v) <= 200 {
      ReadsExactlyDocuments(Text(v), w);
    }
  }

  /** A byte with a letter is printed as a backslash and that letter; the solidus has a letter and
      does without. */
  lemma EscapesWithLetters(c: char, l: char)
    requires l in LETTERS && l != '/' && LETTERS[l] == c as int
    ensures EscapeByte(c) == ['\\', l]
  {
  }

  /** Another control byte is printed as four lower-case digits, and any other byte as itself. */
  lemma EscapesWithDigits(c: char)
    ensures c as int < 0x20 && c as int !in {8, 9, 10, 12, 13} ==>
              var e := EscapeByte(c);
              |e| == 6 && e[..2] == "\\u" && IsNumeral(e[2..], c as int) && forall j :: 2 <= j < 6 ==> e[j] in HEX_DIGITS
    ensures c as int >= 0x20 && c != '\"' && c != '\\' ==> EscapeByte(c) == [c]
  {
    if c as int < 0x20 && c as int !in {8, 9, 10, 12, 13} {
      var e, h := EscapeByte(c), [HexDigit(c as int / 16), HexDigit(c as int % 16)];
      assert e == "\\u00" + h && e[..2] == "\\u" && e[2..] == "00" + h;
      HexDigitIsPlace(0);
      HexDigitIsPlace(c as int / 16);
      HexDigitIsPlace(c as int % 16);
    }
  }

  lemma HexDigitIsPlace(d: int)
    requires 0 <= d < 16
    ensures HEX_DIGITS[d] == HexDigit(d)
  {
  }

  /** U+2028 or U+2029 in UTF-8, or a control byte. */
  predicate AwkwardAt(t: Bytes, i: nat) {
    i < |t| && (t[i] as int < 0x20 || (i + 2 < |t| && t[i] as int == 0xe2 && t[i + 1] as int == 0x80 && t[i + 2] as int in {0xa8, 0xa9}))
  }

  /** Neither line separators nor control bytes are printed as they are. */
  lemma {:induction false} PrintsNothingAwkward(b: Bytes, i: nat)
    ensures !AwkwardAt(Escape(b), i)
  {
    if b != [] {
      var n := if StartsWithSeparator(b) then 3 else 1;
      var e, rest := Escape(b), Escape(b[n..]);
      var front := e[..|e| - |rest|];
      assert e == front + rest;
      if i >= |front| {
        PrintsNothingAwkward(b[n..], i - |front|);
      } else if |front| == 1 && i + 2 < |e| {
        HighBytesStay(b[1..]);
        if |b| > 1 { HighBytesStay(b[2..]); }
      }
    }
  }

  /** A printed byte above 0x7f stands for itself. */
  lemma HighBytesStay(b: Bytes)
    ensures var e := Escape(b); e != [] && e[0] as int > 0x7f ==> e[0] == b[0] && e == [b[0]] + Escape(b[1..])
    ensures b == [] ==> Escape(b) == []
  {
    if b != [] {
      HighByteStays(b[0]);
      if !StartsWithSeparator(b) { assert Escape(b)[0] == EscapeByte(b[0])[0]; }
    }
  }

  lemma HighByteStays(c: char)
    ensures var e := EscapeByte(c); e != [] && (e[0] as int > 0x7f ==> e == [c])
  {
  }

  function Join(sep: Bytes, parts: seq<Bytes>): Bytes {
    if |parts| <= 1 then (if parts == [] then [] else parts[0]) else parts[0] + sep + Join(sep, parts[1..])
  }

  function ItemTexts(items: seq<Json>): seq<Bytes> { seq(|items|, j requires 0 <= j < |items| => Text(items[j])) }

  function MemberTexts(ms: seq<Member>): seq<Bytes> {
    seq(|ms|, j requires 0 <= j < |ms| => Quoted(ms[j].key) + ": " + Text(ms[j].value))
  }

  lemma {:induction false} MoreItemsJoin(x: Json, items: seq<Json>)
    ensures Dump(TEXT, x) + MoreItems(TEXT, items) == Join(", ", ItemTexts([x] + items))
    decreases |items|
  {
    var parts := ItemTexts([x] + items);
    if items != [] {
      MoreItemsJoin(items[0], items[1..]);
      assert [items[0]] + items[1..] == items;
      assert parts[1..] == ItemTexts(items);
    }
  }

  lemma {:induction false} MoreMembersJoin(x: Member, ms: seq<Member>)
    ensures DumpMember(TEXT, x) + MoreMembers(TEXT, ms) == Join(", ", MemberTexts([x] + ms))
    decreases |ms|
  {
    var parts := MemberTexts([x] + ms);
    if ms != [] {
      MoreMembersJoin(ms[0], ms[1..]);
      assert [ms[0]] + ms[1..] == ms;
      assert parts[1..] == MemberTexts(ms);
    }
  }

  lemma ItemsJoin(items: seq<Json>)
    ensures DumpItems(TEXT, items) == Join(", ", ItemTexts(items))
  {
    if items == [] {
      assert ItemTexts(items) == [];
    } else {
      MoreItemsJoin(items[0], items[1..]);
      assert [items[0]] + items[1..] == items;
    }
  }

  lemma MembersJoin(ms: seq<Member>)
    ensures DumpMembers(TEXT, ms) == Join(", ", MemberTexts(ms))
  {
    if ms == [] {
      assert MemberTexts(ms) == [];
    } else {
      MoreMembersJoin(ms[0], ms[1..]);
      assert [ms[0]] + ms[1..] == ms;
    }
  }

  /** Items and members stand in order, separated by a comma and a space. */
  lemma PrintsInOrder(items: seq<Json>, ms: seq<Member>)
    ensures Text(Array(items)) == "[" + Join(", ", ItemTexts(items)) + "]"
    ensures Text(Object(ms)) == "{" + Join(", ", MemberTexts(ms)) + "}"
  {
    ItemsJoin(items);
    MembersJoin(ms);
    assert Dump(TEXT, Array(items)) == "[" + DumpItems(TEXT, items) + "]";
    assert Dump(TEXT, Object(ms)) == "{" + DumpMembers(TEXT, ms) + "}";
  }
}
