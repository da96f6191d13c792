/** The grammar of RFC 8259, and the proof that the parser accepts exactly its texts, up to the
    depth limit, and gives each the value it stands for (json11.cpp:547-660).

    The brackets are treated for any tokens, strings and scalars that are read exactly; the
    grammar is a relation between a stretch of a text and a value.  */
module JsonGrammar {
  import opened Basics
  import opened JsonText
  import opened JsonParsing
  import opened JsonNumbers

  /** What the strings and scalars of a text are, and what an object stores of its members. */
  datatype Lexemes = Lexemes(
    text: (Bytes, nat, nat, Bytes) -> bool,
    scalar: (Bytes, nat, nat, Json) -> bool,
    stored: (seq<Member>, seq<Member>) -> bool)

  // ---------------------------------------------------------------- the grammar

  /** A value stands between i and k, after whitespace, inside `depth` brackets. */
  ghost predicate ValueAt(lx: Lexemes, s: Bytes, i: nat, k: nat, v: Json, depth: nat)
    decreases if i < k then k - i else 0, 1
  {
    && i < k <= |s| && depth <= 200
    && exists j :: i <= j < k && TokenAfter(s, i, s[j], j + 1) && StartsAt(lx, s, j, k, v, depth)
  }

  /** ... from its first character on. */
  ghost predicate StartsAt(lx: Lexemes, s: Bytes, j: nat, k: nat, v: Json, depth: nat)
    requires j < k <= |s|
    decreases k - j, 0
  {
    if s[j] == '{' then v.Object? && HoldsAt(lx, s, j + 1, k, v.members, depth)
    else if s[j] == '[' then v.Array? && ArrayAt(lx, s, j + 1, k, v.items, depth)
    else lx.scalar(s, j, k, v)
  }

  /** Nothing or a list of items, and the closing bracket. */
  ghost predicate ArrayAt(lx: Lexemes, s: Bytes, i: nat, k: nat, items: seq<Json>, depth: nat)
    decreases if i < k then k - i else 0, 3
  {
    if items == [] then TokenAfter(s, i, ']', k) else ItemsAt(lx, s, i, k, items, depth)
  }

  ghost predicate ItemsAt(lx: Lexemes, s: Bytes, i: nat, k: nat, items: seq<Json>, depth: nat)
    requires items != []
    decreases if i < k then k - i else 0, 2
  {
    if |items| == 1 then exists e :: i < e < k && ValueAt(lx, s, i, e, items[0], depth + 1) && TokenAfter(s, e, ']', k)
    else exists e, m :: i < e < m < k && ValueAt(lx, s, i, e, items[0], depth + 1) && TokenAfter(s, e, ',', m) &&
                        ItemsAt(lx, s, m, k, items[1..], depth)
  }

  /** The members of an object, and what it stores of them. */
  ghost predicate HoldsAt(lx: Lexemes, s: Bytes, i: nat, k: nat, stored: seq<Member>, depth: nat)
    decreases if i < k then k - i else 0, 4
  {
    exists ms :: ObjectAt(lx, s, i, k, ms, depth) && lx.stored(ms, stored)
  }

  ghost predicate ObjectAt(lx: Lexemes, s: Bytes, i: nat, k: nat, ms: seq<Member>, depth: nat)
    decreases if i < k then k - i else 0, 3
  {
    if ms == [] then TokenAfter(s, i, '}', k) else MembersAt(lx, s, i, k, ms, depth)
  }

  ghost predicate MembersAt(lx: Lexemes, s: Bytes, i: nat, k: nat, ms: seq<Member>, depth: nat)
    requires ms != []
    decreases if i < k then k - i else 0, 2
  {
    if |ms| == 1 then exists f :: i < f < k && MemberAt(lx, s, i, f, ms[0], depth) && TokenAfter(s, f, '}', k)
    else exists f, m :: i < f < m < k && MemberAt(lx, s, i, f, ms[0], depth) && TokenAfter(s, f, ',', m) &&
                        MembersAt(lx, s, m, k, ms[1..], depth)
  }

  /** A string, a colon and a value. */
  ghost predicate MemberAt(lx: Lexemes, s: Bytes, i: nat, f: nat, m: Member, depth: nat)
    decreases if i < f then f - i else 0, 0
  {
    exists q, e, c :: i < q < e < c < f && TokenAfter(s, i, '\"', q) && lx.text(s, q, e, m.key) &&
                      TokenAfter(s, e, ':', c) && ValueAt(lx, s, c, f, m.value, depth + 1)
  }

  // ---------------------------------------------------------------- lexers that read exactly

  function PutAll(lex: Lexer, data: seq<Member>, ms: seq<Member>): seq<Member>
    decreases |ms|
  {
    if ms == [] then data else PutAll(lex, lex.put(data, ms[0]), ms[1..])
  }

  ghost predicate TokenExact(lex: Lexer, s: Bytes, i: nat, c: char, k: nat) {
    i <= |s| ==> (lex.token(s, i) == Ok(c, k) <==> TokenAfter(s, i, c, k))
  }

  ghost predicate TextExact(lex: Lexer, lx: Lexemes, s: Bytes, i: nat, v: Bytes, k: nat) {
    i <= |s| ==> (lex.text(s, i) == Ok(v, k) <==> lx.text(s, i, k, v))
  }

  /** A scalar does not start with a bracket. */
  ghost predicate ScalarExact(lex: Lexer, lx: Lexemes, s: Bytes, j: nat, v: Json, k: nat) {
    j < |s| ==>
      && (lex.scalar(s, j + 1, s[j]) == Ok(v, k) <==> lx.scalar(s, j, k, v))
      && (lx.scalar(s, j, k, v) ==> s[j] != ']' && s[j] != '}')
  }

  ghost predicate StoredExact(lex: Lexer, lx: Lexemes, ms: seq<Member>, out: seq<Member>) {
    lx.stored(ms, out) <==> out == PutAll(lex, [], ms)
  }

  ghost predicate Exact(lex: Lexer, lx: Lexemes) {
    && lex.Advances()
    && (forall s, i: nat, c, k: nat :: TokenExact(lex, s, i, c, k))
    && (forall s, i: nat, v, k: nat :: TextExact(lex, lx, s, i, v, k))
    && (forall s, j: nat, v, k: nat :: ScalarExact(lex, lx, s, j, v, k))
    && (forall ms, out :: StoredExact(lex, lx, ms, out))
  }

  /** Looking at the next token and stepping back in front of it changes nothing. */
  lemma StepBack(lex: Lexer, lx: Lexemes, s: Bytes, i: nat, depth: nat, data: seq<Json>)
    requires Exact(lex, lx) && i <= |s| && lex.token(s, i).Ok?
    ensures var k := lex.token(s, i).next;
            0 < k <= |s| && ParseItems(lex, s, k - 1, depth, data) == ParseItems(lex, s, i, depth, data)
  {
    var c, k := lex.token(s, i).value, lex.token(s, i).next;
    assert TokenExact(lex, s, i, c, k);
    assert TokenExact(lex, s, k - 1, c, k);
    assert ParseValue(lex, s, k - 1, depth + 1) == ParseValue(lex, s, i, depth + 1);
  }

  /** What follows the item that ends at e. */
  function AfterItem(lex: Lexer, s: Bytes, e: nat, depth: nat, data: seq<Json>): Result<Json>
    requires lex.Advances() && e <= |s|
  {
    match lex.token(s, e)
    case Fail(err) => Fail(err)
    case Ok(sep, m) =>
      if sep == ']' then Ok(Array(data), m)
      else if sep != ',' then Fail(NoCommaInList(sep))
      else if lex.token(s, m).Fail? then Fail(lex.token(s, m).error)
      else ParseItems(lex, s, m, depth, data)
  }

  lemma AfterItemFollows(lex: Lexer, lx: Lexemes, s: Bytes, i: nat, depth: nat, data: seq<Json>)
    requires Exact(lex, lx) && i <= |s| && ParseValue(lex, s, i, depth + 1).Ok?
    ensures var x := ParseValue(lex, s, i, depth + 1);
            ParseItems(lex, s, i, depth, data) == AfterItem(lex, s, x.next, depth, data + [x.value])
  {
    var x := ParseValue(lex, s, i, depth + 1);
    var sep := lex.token(s, x.next);
    if sep.Ok? && lex.token(s, sep.next).Ok? { StepBack(lex, lx, s, sep.next, depth, data + [x.value]); }
  }

  // ---------------------------------------------------------------- whatever is read is in the grammar

  lemma {:induction false} ValueSound(lex: Lexer, lx: Lexemes, s: Bytes, i: nat, depth: nat, v: Json, k: nat)
    requires Exact(lex, lx) && i <= |s| && ParseValue(lex, s, i, depth) == Ok(v, k)
    ensures ValueAt(lx, s, i, k, v, depth)
    decreases |s| - i, 0
  {
    var c, j := lex.token(s, i).value, lex.token(s, i).next;
    assert TokenExact(lex, s, i, c, j);
    if c == '{' {
      ObjectSound(lex, lx, s, j, depth, v, k);
    } else if c == '[' {
      ArraySound(lex, lx, s, j, depth, v, k);
    } else {
      assert ScalarExact(lex, lx, s, j - 1, v, k);
    }
    assert StartsAt(lx, s, j - 1, k, v, depth);
  }

  lemma {:induction false} ArraySound(lex: Lexer, lx: Lexemes, s: Bytes, j: nat, depth: nat, v: Json, k: nat)
    requires Exact(lex, lx) && j <= |s| && ParseList(lex, s, j, depth) == Ok(v, k)
    ensures v.Array? && ArrayAt(lx, s, j, k, v.items, depth)
    decreases |s| - j, 2
  {
    var c, j' := lex.token(s, j).value, lex.token(s, j).next;
    assert TokenExact(lex, s, j, c, j');
    if c != ']' {
      StepBack(lex, lx, s, j, depth, []);
      var items := ItemsSound(lex, lx, s, j, depth, [], v, k);
      assert [] + items == items;
    }
  }

  lemma LastItem(lx: Lexemes, s: Bytes, i: nat, e: nat, k: nat, x: Json, depth: nat)
    requires i < e && ValueAt(lx, s, i, e, x, depth + 1) && TokenAfter(s, e, ']', k)
    ensures ItemsAt(lx, s, i, k, [x], depth)
  {
  }

  lemma ItemAndMore(lx: Lexemes, s: Bytes, i: nat, e: nat, m: nat, k: nat, x: Json, rest: seq<Json>, depth: nat)
    requires ValueAt(lx, s, i, e, x, depth + 1) && TokenAfter(s, e, ',', m)
    requires rest != [] && m < k && ItemsAt(lx, s, m, k, rest, depth)
    ensures ItemsAt(lx, s, i, k, [x] + rest, depth)
  {
    assert ([x] + rest)[1..] == rest;
  }

  lemma {:induction false} ItemsSound(lex: Lexer, lx: Lexemes, s: Bytes, i: nat, depth: nat, data: seq<Json>, v: Json, k: nat)
    returns (items: seq<Json>)
    requires Exact(lex, lx) && i <= |s| && ParseItems(lex, s, i, depth, data) == Ok(v, k)
    ensures items != [] && v == Array(data + items) && ItemsAt(lx, s, i, k, items, depth)
    decreases |s| - i, 1
  {
    var x, e := ParseValue(lex, s, i, depth + 1).value, ParseValue(lex, s, i, depth + 1).next;
    AfterItemFollows(lex, lx, s, i, depth, data);
    ValueSound(lex, lx, s, i, depth + 1, x, e);
    var sep, m := lex.token(s, e).value, lex.token(s, e).next;
    assert TokenExact(lex, s, e, sep, m);
    if sep == ']' {
      items := [x];
      LastItem(lx, s, i, e, k, x, depth);
    } else {
      var rest := ItemsSound(lex, lx, s, m, depth, data + [x], v, k);
      items := [x] + rest;
      assert data + [x] + rest == data + items;
      ItemAndMore(lx, s, i, e, m, k, x, rest, depth);
    }
  }

  lemma {:induction false} ObjectSound(lex: Lexer, lx: Lexemes, s: Bytes, j: nat, depth: nat, v: Json, k: nat)
    requires Exact(lex, lx) && j <= |s| && ParseObject(lex, s, j, depth) == Ok(v, k)
    ensures v.Object? && HoldsAt(lx, s, j, k, v.members, depth)
    decreases |s| - j, 2
  {
    var c, q := lex.token(s, j).value, lex.token(s, j).next;
    assert TokenExact(lex, s, j, c, q);
    var ms := [];
    if c != '}' { ms := MembersSound(lex, lx, s, j, depth, [], v, k); }
    assert StoredExact(lex, lx, ms, v.members);
    assert ObjectAt(lx, s, j, k, ms, depth);
  }

  lemma LastMember(lx: Lexemes, s: Bytes, i: nat, f: nat, k: nat, m: Member, depth: nat)
    requires i < f && MemberAt(lx, s, i, f, m, depth) && TokenAfter(s, f, '}', k)
    ensures MembersAt(lx, s, i, k, [m], depth)
  {
  }

  lemma MemberAndMore(lx: Lexemes, s: Bytes, i: nat, f: nat, n: nat, k: nat, m: Member, rest: seq<Member>, depth: nat)
    requires i < f && MemberAt(lx, s, i, f, m, depth) && TokenAfter(s, f, ',', n)
    requires rest != [] && n < k && MembersAt(lx, s, n, k, rest, depth)
    ensures MembersAt(lx, s, i, k, [m] + rest, depth)
  {
    assert ([m] + rest)[1..] == rest;
  }

  /** The members from position i, whose first character is the next token. */
  function MembersFrom(lex: Lexer, s: Bytes, i: nat, depth: nat, data: seq<Member>): (r: Result<Json>)
    requires lex.Advances() && i <= |s|
    ensures r.Ok? ==> i < r.next <= |s|
  {
    match lex.token(s, i)
    case Fail(e) => Fail(e)
    case Ok(c, k) => ParseMembers(lex, s, k, c, depth, data)
  }

  lemma {:induction false} MembersSound(lex: Lexer, lx: Lexemes, s: Bytes, i: nat, depth: nat, data: seq<Member>, v: Json, k: nat)
    returns (ms: seq<Member>)
    requires Exact(lex, lx) && i <= |s| && MembersFrom(lex, s, i, depth, data) == Ok(v, k)
    ensures ms != [] && v == Object(PutAll(lex, data, ms)) && MembersAt(lx, s, i, k, ms, depth)
    decreases |s| - i, 1
  {
    var m, f := MemberSound(lex, lx, s, i, depth, data);
    var sep, n := lex.token(s, f).value, lex.token(s, f).next;
    assert TokenExact(lex, s, f, sep, n);
    if sep == '}' {
      ms := [m];
      LastMember(lx, s, i, f, k, m, depth);
    } else {
      var rest := MembersSound(lex, lx, s, n, depth, lex.put(data, m), v, k);
      ms := [m] + rest;
      assert ms[1..] == rest;
      MemberAndMore(lx, s, i, f, n, k, m, rest, depth);
    }
  }

  /** What follows the member m, which ends at f. */
  function AfterMember(lex: Lexer, s: Bytes, f: nat, depth: nat, data: seq<Member>): Result<Json>
    requires lex.Advances() && f <= |s|
  {
    match lex.token(s, f)
    case Fail(e) => Fail(e)
    case Ok(sep, n) =>
      if sep == '}' then Ok(Object(data), n)
      else if sep != ',' then Fail(NoCommaInObject(sep))
      else MembersFrom(lex, s, n, depth, data)
  }

  /** The member that is read first. */
  lemma {:induction false} MemberSound(lex: Lexer, lx: Lexemes, s: Bytes, i: nat, depth: nat, data: seq<Member>)
    returns (m: Member, f: nat)
    requires Exact(lex, lx) && i <= |s| && MembersFrom(lex, s, i, depth, data).Ok?
    ensures i < f <= |s| && MemberAt(lx, s, i, f, m, depth)
    ensures MembersFrom(lex, s, i, depth, data) == AfterMember(lex, s, f, depth, lex.put(data, m))
    decreases |s| - i, 0
  {
    var q := lex.token(s, i).next;
    assert TokenExact(lex, s, i, '\"', q);
    var key, e := lex.text(s, q).value, lex.text(s, q).next;
    assert TextExact(lex, lx, s, q, key, e);
    var c := lex.token(s, e).next;
    assert TokenExact(lex, s, e, ':', c);
    var value := ParseValue(lex, s, c, depth + 1);
    m, f := Member(key, value.value), value.next;
    ValueSound(lex, lx, s, c, depth + 1, value.value, f);
  }

  // ---------------------------------------------------------------- whatever is in the grammar is read

  /** A value does not start with a closing bracket. */
  lemma ValueStarts(lex: Lexer, lx: Lexemes, s: Bytes, i: nat, k: nat, v: Json, depth: nat) returns (j: nat)
    requires Exact(lex, lx) && ValueAt(lx, s, i, k, v, depth)
    ensures i <= j < k && lex.token(s, i) == Ok(s[j], j + 1) && s[j] != ']' && StartsAt(lx, s, j, k, v, depth)
  {
    j :| i <= j < k && TokenAfter(s, i, s[j], j + 1) && StartsAt(lx, s, j, k, v, depth);
    assert TokenExact(lex, s, i, s[j], j + 1);
    assert ScalarExact(lex, lx, s, j, v, k);
  }

  lemma {:induction false} ValueComplete(lex: Lexer, lx: Lexemes, s: Bytes, i: nat, k: nat, v: Json, depth: nat)
    requires Exact(lex, lx) && ValueAt(lx, s, i, k, v, depth)
    ensures ParseValue(lex, s, i, depth) == Ok(v, k)
    decreases k - i, 1
  {
    var j := ValueStarts(lex, lx, s, i, k, v, depth);
    if s[j] == '{' {
      ObjectComplete(lex, lx, s, j + 1, k, v.members, depth);
    } else if s[j] == '[' {
      ArrayComplete(lex, lx, s, j + 1, k, v.items, depth);
    } else {
      assert ScalarExact(lex, lx, s, j, v, k);
    }
  }

  lemma {:induction false} ArrayComplete(lex: Lexer, lx: Lexemes, s: Bytes, i: nat, k: nat, items: seq<Json>, depth: nat)
    requires Exact(lex, lx) && i <= k <= |s| && ArrayAt(lx, s, i, k, items, depth)
    ensures ParseList(lex, s, i, depth) == Ok(Array(items), k)
    decreases k - i, 3
  {
    if items == [] {
      assert TokenExact(lex, s, i, ']', k);
    } else {
      ItemsComplete(lex, lx, s, i, k, items, depth, []);
      StepBack(lex, lx, s, i, depth, []);
      assert [] + items == items;
    }
  }

  lemma Shift(data: seq<Json>, items: seq<Json>)
    requires items != []
    ensures data + [items[0]] + items[1..] == data + items
    ensures |items| == 1 ==> data + [items[0]] == data + items
  {
  }

  lemma {:induction false} ItemsComplete(
    lex: Lexer, lx: Lexemes, s: Bytes, i: nat, k: nat, items: seq<Json>, depth: nat, data: seq<Json>)
    requires Exact(lex, lx) && i <= k <= |s| && items != [] && ItemsAt(lx, s, i, k, items, depth)
    ensures lex.token(s, i).Ok? && lex.token(s, i).value != ']'
    ensures ParseItems(lex, s, i, depth, data) == Ok(Array(data + items), k)
    decreases k - i, 2
  {
    if |items| == 1 {
      var e :| i < e < k && ValueAt(lx, s, i, e, items[0], depth + 1) && TokenAfter(s, e, ']', k);
      ItemComplete(lex, lx, s, i, e, items[0], depth, data);
      assert TokenExact(lex, s, e, ']', k);
      Shift(data, items);
    } else {
      var e, m :| i < e < m < k && ValueAt(lx, s, i, e, items[0], depth + 1) && TokenAfter(s, e, ',', m) &&
                  ItemsAt(lx, s, m, k, items[1..], depth);
      ItemComplete(lex, lx, s, i, e, items[0], depth, data);
      assert TokenExact(lex, s, e, ',', m);
      ItemsComplete(lex, lx, s, m, k, items[1..], depth, data + [items[0]]);
      Shift(data, items);
    }
  }

  lemma {:induction false} ItemComplete(
    lex: Lexer, lx: Lexemes, s: Bytes, i: nat, e: nat, x: Json, depth: nat, data: seq<Json>)
    requires Exact(lex, lx) && i <= e <= |s| && ValueAt(lx, s, i, e, x, depth + 1)
    ensures lex.token(s, i).Ok? && lex.token(s, i).value != ']'
    ensures ParseItems(lex, s, i, depth, data) == AfterItem(lex, s, e, depth, data + [x])
    decreases e - i, 2
  {
    var _ := ValueStarts(lex, lx, s, i, e, x, depth + 1);
    ValueComplete(lex, lx, s, i, e, x, depth + 1);
    AfterItemFollows(lex, lx, s, i, depth, data);
  }

  lemma {:induction false} ObjectComplete(lex: Lexer, lx: Lexemes, s: Bytes, i: nat, k: nat, stored: seq<Member>, depth: nat)
    requires Exact(lex, lx) && i <= k <= |s| && HoldsAt(lx, s, i, k, stored, depth)
    ensures ParseObject(lex, s, i, depth) == Ok(Object(stored), k)
    decreases k - i, 3
  {
    var ms :| ObjectAt(lx, s, i, k, ms, depth) && lx.stored(ms, stored);
    assert StoredExact(lex, lx, ms, stored);
    if ms == [] {
      assert TokenExact(lex, s, i, '}', k);
    } else {
      MembersComplete(lex, lx, s, i, k, ms, depth, []);
    }
  }

  lemma {:induction false} MembersComplete(
    lex: Lexer, lx: Lexemes, s: Bytes, i: nat, k: nat, ms: seq<Member>, depth: nat, data: seq<Member>)
    requires Exact(lex, lx) && i <= k <= |s| && ms != [] && MembersAt(lx, s, i, k, ms, depth)
    ensures lex.token(s, i).Ok? && lex.token(s, i).value == '\"'
    ensures MembersFrom(lex, s, i, depth, data) == Ok(Object(PutAll(lex, data, ms)), k)
    decreases k - i, 2
  {
    if |ms| == 1 {
      var f :| i < f < k && MemberAt(lx, s, i, f, ms[0], depth) && TokenAfter(s, f, '}', k);
      MemberComplete(lex, lx, s, i, f, ms[0], depth, data);
      assert TokenExact(lex, s, f, '}', k);
    } else {
      var f, n :| i < f < n < k && MemberAt(lx, s, i, f, ms[0], depth) && TokenAfter(s, f, ',', n) &&
                  MembersAt(lx, s, n, k, ms[1..], depth);
      MemberComplete(lex, lx, s, i, f, ms[0], depth, data);
      assert TokenExact(lex, s, f, ',', n);
      MembersComplete(lex, lx, s, n, k, ms[1..], depth, lex.put(data, ms[0]));
    }
  }

  lemma {:induction false} MemberComplete(
    lex: Lexer, lx: Lexemes, s: Bytes, i: nat, f: nat, m: Member, depth: nat, data: seq<Member>)
    requires Exact(lex, lx) && i <= f <= |s| && MemberAt(lx, s, i, f, m, depth)
    ensures lex.token(s, i).Ok? && lex.token(s, i).value == '\"'
    ensures MembersFrom(lex, s, i, depth, data) == AfterMember(lex, s, f, depth, lex.put(data, m))
    decreases f - i, 1
  {
    var q, e, c :| i < q < e < c < f && TokenAfter(s, i, '\"', q) && lx.text(s, q, e, m.key) &&
                   TokenAfter(s, e, ':', c) && ValueAt(lx, s, c, f, m.value, depth + 1);
    assert TokenExact(lex, s, i, '\"', q);
    assert TextExact(lex, lx, s, q, m.key, e);
    assert TokenExact(lex, s, e, ':', c);
    ValueComplete(lex, lx, s, c, f, m.value, depth + 1);
  }

  /** Lexers that read their tokens exactly make a parser that reads exactly the values. */
  lemma ReadsExactlyValues(lex: Lexer, lx: Lexemes, s: Bytes, i: nat, k: nat, v: Json, depth: nat)
    requires Exact(lex, lx) && i <= |s|
    ensures ParseValue(lex, s, i, depth) == Ok(v, k) <==> ValueAt(lx, s, i, k, v, depth)
  {
    if ParseValue(lex, s, i, depth) == Ok(v, k) { ValueSound(lex, lx, s, i, depth, v, k); }
    if ValueAt(lx, s, i, k, v, depth) { ValueComplete(lex, lx, s, i, k, v, depth); }
  }

  // ---------------------------------------------------------------- what is refused, and why

  /** A list goes on behind an item with a comma or ends. */
  lemma BadListIsNamed(lex: Lexer, lx: Lexemes, s: Bytes, o: nat, e: nat, x: Json, depth: nat, c: char, m: nat)
    requires Exact(lex, lx) && o <= e <= |s| && ValueAt(lx, s, o, e, x, depth + 1)
    requires TokenAfter(s, e, c, m) && c != ',' && c != ']'
    ensures ParseList(lex, s, o, depth) == Fail(NoCommaInList(c))
  {
    ItemComplete(lex, lx, s, o, e, x, depth, []);
    StepBack(lex, lx, s, o, depth, []);
    assert TokenExact(lex, s, e, c, m);
  }

  /** An object has a key ... */
  lemma NoKeyIsNamed(lex: Lexer, lx: Lexemes, s: Bytes, o: nat, depth: nat, c: char, m: nat)
    requires Exact(lex, lx) && o <= |s| && TokenAfter(s, o, c, m) && c != '\"' && c != '}'
    ensures ParseObject(lex, s, o, depth) == Fail(NoKey(c))
  {
    assert TokenExact(lex, s, o, c, m);
  }

  /** ... and a colon behind it, ... */
  lemma NoColonIsNamed(lex: Lexer, lx: Lexemes, s: Bytes, o: nat, q: nat, e: nat, key: Bytes, depth: nat, c: char, m: nat)
    requires Exact(lex, lx) && o <= q <= e <= |s| && TokenAfter(s, o, '\"', q) && lx.text(s, q, e, key)
    requires TokenAfter(s, e, c, m) && c != ':'
    ensures ParseObject(lex, s, o, depth) == Fail(NoColon(c))
  {
    assert TokenExact(lex, s, o, '\"', q);
    assert TextExact(lex, lx, s, q, key, e);
    assert TokenExact(lex, s, e, c, m);
  }

  /** ... and goes on behind a member with a comma and another key, or ends. */
  lemma BadObjectIsNamed(lex: Lexer, lx: Lexemes, s: Bytes, o: nat, f: nat, x: Member, depth: nat, c: char, m: nat)
    requires Exact(lex, lx) && o <= f <= |s| && MemberAt(lx, s, o, f, x, depth) && TokenAfter(s, f, c, m)
    ensures c != ',' && c != '}' ==> ParseObject(lex, s, o, depth) == Fail(NoCommaInObject(c))
    ensures forall d, n: nat :: c == ',' && TokenAfter(s, m, d, n) && d != '\"' ==> ParseObject(lex, s, o, depth) == Fail(NoKey(d))
  {
    MemberComplete(lex, lx, s, o, f, x, depth, []);
    assert TokenExact(lex, s, f, c, m);
    forall d, n: nat | c == ',' && TokenAfter(s, m, d, n) && d != '\"'
      ensures ParseObject(lex, s, o, depth) == Fail(NoKey(d))
    {
      assert TokenExact(lex, s, m, d, n);
    }
  }
}
