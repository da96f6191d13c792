/** JSON values and their text (json11.cpp:43-128).

    A byte is a character below 256; nothing here depends on there being no others.  An object is the list of its
    members in the order in which `std::map` iterates over them, by ascending key.  */
module JsonText {
  import opened Basics
  import opened Decimals

  type Bytes = string

  datatype Json =
    | Null
    | Bool(b: bool)
    | Number(n: int)
    | Double(lexeme: Bytes)  // a number whose value is left to atof
    | String(s: Bytes)
    | Array(items: seq<Json>)
    | Object(members: seq<Member>)

  datatype Member = Member(key: Bytes, value: Json)

  // ---------------------------------------------------------------- order of keys

  /** Bytewise lexicographic order, as `std::string` compares. */
  predicate Less(a: Bytes, b: Bytes)
    decreases |a|
  {
    b != [] && (a == [] || a[0] < b[0] || (a[0] == b[0] && Less(a[1..], b[1..])))
  }

  predicate SortedByKey(ms: seq<Member>) {
    forall i, j :: 0 <= i < j < |ms| ==> Less(ms[i].key, ms[j].key)
  }

  /** `data[key] = value` on a sorted list of members. */
  function Insert(ms: seq<Member>, m: Member): seq<Member> {
    if ms == [] then [m]
    else if ms[0].key == m.key then [m] + ms[1..]
    else if Less(m.key, ms[0].key) then [m] + ms
    else [ms[0]] + Insert(ms[1..], m)
  }

  lemma {:induction false} LessIsStrict(a: Bytes, b: Bytes)
    requires Less(a, b)
    ensures a != b && !Less(b, a)
    decreases |a|
  {
    if a != [] && a[0] == b[0] { LessIsStrict(a[1..], b[1..]); }
  }

  /** A key above all others goes to the end. */
  lemma {:induction false} InsertLast(ms: seq<Member>, m: Member)
    requires forall i :: 0 <= i < |ms| ==> Less(ms[i].key, m.key)
    ensures Insert(ms, m) == ms + [m]
  {
    if ms != [] {
      LessIsStrict(ms[0].key, m.key);
      InsertLast(ms[1..], m);
      assert ms == [ms[0]] + ms[1..];
    }
  }

  // ---------------------------------------------------------------- printable values

  const INT_MIN := -0x8000_0000
  const INT_MAX := 0x7fff_ffff

  /** A value built from null, bools, 32-bit ints, byte strings, arrays and maps. */
  predicate Printable(v: Json) {
    match v
    case Null => true
    case Bool(_) => true
    case Number(n) => INT_MIN <= n <= INT_MAX
    case Double(_) => false
    case String(_) => true
    case Array(items) => forall i :: 0 <= i < |items| ==> Printable(items[i])
    case Object(ms) => SortedByKey(ms) && forall i :: 0 <= i < |ms| ==> Printable(ms[i].value)
  }

  /** How many brackets enclose the innermost value; an empty array or map encloses none. */
  function Nesting(v: Json): nat {
    match v
    case Array(items) => NestingOfItems(items)
    case Object(ms) => NestingOfMembers(ms)
    case _ => 0
  }

  function NestingOfItems(items: seq<Json>): nat {
    if items == [] then 0 else Max(1 + Nesting(items[0]), NestingOfItems(items[1..]))
  }

  function NestingOfMembers(ms: seq<Member>): nat {
    if ms == [] then 0 else Max(1 + Nesting(ms[0].value), NestingOfMembers(ms[1..]))
  }

  // ---------------------------------------------------------------- text of scalars

  function HexDigit(d: int): char
    requires 0 <= d < 16
  {
    if d < 10 then '0' + d as char else 'a' + (d - 10) as char
  }

  /** One byte of a string. */
  function EscapeByte(c: char): Bytes {
    if c == '\\' then "\\\\"
    else if c == '\"' then "\\\""
    else if c == 8 as char then "\\b"
    else if c == 12 as char then "\\f"
    else if c == '\n' then "\\n"
    else if c == '\r' then "\\r"
    else if c == '\t' then "\\t"
    else if c as int <= 0x1f then "\\u00" + [HexDigit(c as int / 16), HexDigit(c as int % 16)]
    else [c]
  }

  /** The separators U+2028 and U+2029, in UTF-8. */
  predicate StartsWithSeparator(s: Bytes) {
    |s| >= 3 && s[0] == 0xe2 as char && s[1] == 0x80 as char && (s[2] == 0xa8 as char || s[2] == 0xa9 as char)
  }

  function Escape(s: Bytes): Bytes {
    if s == [] then []
    else if StartsWithSeparator(s) then
      (if s[2] == 0xa8 as char then "\\u2028" else "\\u2029") + Escape(s[3..])
    else EscapeByte(s[0]) + Escape(s[1..])
  }

  function Quoted(s: Bytes): Bytes { "\"" + Escape(s) + "\"" }

  function ScalarText(v: Json): Bytes {
    match v
    case Null => "null"
    case Bool(b) => if b then "true" else "false"
    case Number(n) => IntText(n)
    case Double(lexeme) => lexeme
    case String(s) => Quoted(s)
    case _ => []
  }

  // ---------------------------------------------------------------- text of values

  /** What the printer of brackets is built on: the text of a key and of a scalar. */
  datatype Printer = Printer(quote: Bytes -> Bytes, scalar: Json -> Bytes)

  const TEXT := Printer((s: Bytes) => Quoted(s), (v: Json) => ScalarText(v))

  function Dump(pr: Printer, v: Json): Bytes
    decreases v
  {
    if v.Array? then "[" + DumpItems(pr, v.items) + "]"
    else if v.Object? then "{" + DumpMembers(pr, v.members) + "}"
    else pr.scalar(v)
  }

  function DumpItems(pr: Printer, items: seq<Json>): Bytes
    decreases items, 1
  {
    if items == [] then [] else Dump(pr, items[0]) + MoreItems(pr, items[1..])
  }

  /** The items after the first, each behind a comma. */
  function MoreItems(pr: Printer, items: seq<Json>): Bytes
    decreases items, 0
  {
    if items == [] then [] else ", " + Dump(pr, items[0]) + MoreItems(pr, items[1..])
  }

  function DumpMember(pr: Printer, m: Member): Bytes
    decreases m
  {
    pr.quote(m.key) + ": " + Dump(pr, m.value)
  }

  function DumpMembers(pr: Printer, ms: seq<Member>): Bytes
    decreases ms, 1
  {
    if ms == [] then [] else DumpMember(pr, ms[0]) + MoreMembers(pr, ms[1..])
  }

  function MoreMembers(pr: Printer, ms: seq<Member>): Bytes
    decreases ms, 0
  {
    if ms == [] then [] else ", " + DumpMember(pr, ms[0]) + MoreMembers(pr, ms[1..])
  }

  /** `Json::dump` */
  function Text(v: Json): Bytes { Dump(TEXT, v) }
}
