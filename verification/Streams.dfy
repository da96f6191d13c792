/** Formatted text streams: the `>>` of words and numbers, and formats built from them by
    putting one field behind another (raft/simple_serialize.cpp, raft/simple_serialize.hpp).

    A `Format` is a printer together with a reader.  `Good` says that the two are inverse to
    each other on exactly the values that fit; the combinators keep it.  */
module Streams {
  import opened Basics
  import opened Decimals

  datatype Result<+T> = Ok(value: T, rest: string) | Fail

  /** `isspace` */
  predicate IsSpace(c: char) { c == ' ' || '\t' <= c <= '\r' }

  // ---------------------------------------------------------------- reading

  function SkipSpace(s: string): string {
    if s != [] && IsSpace(s[0]) then SkipSpace(s[1..]) else s
  }

  /** The length of the word at the front. */
  function WordSpan(s: string): (n: nat)
    ensures n <= |s|
  {
    if s == [] || IsSpace(s[0]) then 0 else 1 + WordSpan(s[1..])
  }

  function DigitSpan(s: string): (n: nat)
    ensures n <= |s|
    ensures forall j :: 0 <= j < n ==> IsDigit(s[j])
  {
    if s == [] || !IsDigit(s[0]) then 0 else 1 + DigitSpan(s[1..])
  }

  function DecimalValue(s: string): nat
    requires forall j :: 0 <= j < |s| ==> IsDigit(s[j])
  {
    if s == [] then 0
    else
      assert IsDigit(s[|s| - 1]);
      10 * DecimalValue(s[..|s| - 1]) + (s[|s| - 1] as int - '0' as int)
  }

  function ReadWord(s: string): Result<string> {
    var t := SkipSpace(s);
    if t == [] then Fail else Ok(t[..WordSpan(t)], t[WordSpan(t)..])
  }

  /** A sign, which may be missing, and at least one digit. */
  function ReadSigned(s: string): Result<(bool, nat)> {
    var t := SkipSpace(s);
    var signed := t != [] && (t[0] == '-' || t[0] == '+');
    var u := if signed then t[1..] else t;
    var n := DigitSpan(u);
    if n == 0 then Fail else Ok((signed && t[0] == '-', DecimalValue(u[..n])), u[n..])
  }

  const U64: nat := 0x1_0000_0000_0000_0000
  const I32: int := 0x8000_0000

  /** An unsigned number takes a minus sign modulo its range. */
  function ReadUnsigned(s: string): Result<nat> {
    match ReadSigned(s)
    case Fail => Fail
    case Ok((minus, m), rest) =>
      if m >= U64 then Fail else Ok(if minus then (U64 - m) % U64 else m, rest)
  }

  function ReadInt(s: string): Result<int> {
    match ReadSigned(s)
    case Fail => Fail
    case Ok((minus, m), rest) =>
      var v: int := if minus then -(m as int) else m;
      if -I32 <= v < I32 then Ok(v, rest) else Fail
  }

  function ReadFlag(s: string): Result<bool> {
    match ReadSigned(s)
    case Fail => Fail
    case Ok((minus, m), rest) =>
      if m == 0 then Ok(false, rest) else if m == 1 && !minus then Ok(true, rest) else Fail
  }

  // ---------------------------------------------------------------- formats

  /** `trail` is what the printer leaves behind the text its reader consumes. */
  datatype Format<!T> = Format(put: T -> string, read: string -> Result<T>, fits: T -> bool, trail: string)

  predicate Delimited(rest: string) { rest == [] || IsSpace(rest[0]) }

  predicate OneLine(s: string) { forall j :: 0 <= j < |s| ==> s[j] != '\n' }

  predicate EndsInSpace(s: string) { s != [] && s[|s| - 1] == ' ' }

  ghost predicate ReadsBack<T>(f: Format<T>, x: T, rest: string) {
    f.fits(x) && Delimited(rest) ==> f.read(f.put(x) + rest) == Ok(x, f.trail + rest)
  }

  ghost predicate PrintsLine<T>(f: Format<T>, x: T) {
    f.fits(x) ==> OneLine(f.put(x)) && (f.trail == " " ==> EndsInSpace(f.put(x)))
  }

  /** The reader skips a space, and what it reads fits. */
  ghost predicate ReadsFitting<T>(f: Format<T>, s: string) {
    && f.read([' '] + s) == f.read(s)
    && (f.read(s).Ok? ==> f.fits(f.read(s).value))
  }

  ghost predicate Good<T(!new)>(f: Format<T>) {
    && (forall x, rest :: ReadsBack(f, x, rest))
    && (forall x :: PrintsLine(f, x))
    && (forall s :: ReadsFitting(f, s))
    && (f.trail == "" || f.trail == " ")
  }

  predicate IsWord(w: string) { w != [] && forall j :: 0 <= j < |w| ==> !IsSpace(w[j]) }

  const WORD := Format((w: string) => w, ReadWord, IsWord, "")
  const UNSIGNED := Format((n: nat) => Digits(n), ReadUnsigned, (n: nat) => n < U64, "")
  const INT := Format(IntText, ReadInt, (n: int) => -I32 <= n < I32, "")
  const FLAG := Format((b: bool) => if b then "1" else "0", ReadFlag, (b: bool) => true, "")

  /** `<< x << " " << y` and `>> x >> y` */
  function Pair<A, B>(f: Format<A>, g: Format<B>): Format<(A, B)> {
    Format((p: (A, B)) => PrintPair(f, g, p), s => ReadPair(f, g, s), (p: (A, B)) => f.fits(p.0) && g.fits(p.1), g.trail)
  }

  function PrintPair<A, B>(f: Format<A>, g: Format<B>, p: (A, B)): string {
    f.put(p.0) + ([' '] + g.put(p.1))
  }

  function ReadPair<A, B>(f: Format<A>, g: Format<B>, s: string): Result<(A, B)> {
    match f.read(s)
    case Fail => Fail
    case Ok(a, rest) =>
      match g.read(rest)
      case Fail => Fail
      case Ok(b, rest') => Ok((a, b), rest')
  }

  /** A structure read and written through its fields. */
  function Via<A, B>(f: Format<A>, make: A -> B, take: B -> A): Format<B> {
    Format((b: B) => f.put(take(b)), s => ReadVia(f, make, s), (b: B) => f.fits(take(b)), f.trail)
  }

  function ReadVia<A, B>(f: Format<A>, make: A -> B, s: string): Result<B> {
    match f.read(s)
    case Fail => Fail
    case Ok(a, rest) => Ok(make(a), rest)
  }

  /** The length, then each element with a space behind it. */
  function Vector<T>(f: Format<T>): Format<seq<T>> {
    Format((xs: seq<T>) => PrintVector(f, xs), s => ReadVector(f, s), (xs: seq<T>) => VectorFits(f, xs), " ")
  }

  predicate VectorFits<T>(f: Format<T>, xs: seq<T>) {
    |xs| < U64 && forall j :: 0 <= j < |xs| ==> f.fits(xs[j])
  }

  function PrintVector<T>(f: Format<T>, xs: seq<T>): string {
    Digits(|xs|) + ([' '] + PrintItems(f, xs))
  }

  function PrintItems<T>(f: Format<T>, xs: seq<T>): string {
    if xs == [] then [] else f.put(xs[0]) + ([' '] + PrintItems(f, xs[1..]))
  }

  function ReadVector<T>(f: Format<T>, s: string): Result<seq<T>> {
    match ReadUnsigned(s)
    case Fail => Fail
    case Ok(n, rest) => ReadItems(f, n, [], rest)
  }

  /** n more elements behind those already read. */
  function ReadItems<T>(f: Format<T>, n: nat, xs: seq<T>, s: string): Result<seq<T>> {
    if n == 0 then Ok(xs, s)
    else
      match f.read(s)
      case Fail => Fail
      case Ok(x, rest) => ReadItems(f, n - 1, xs + [x], rest)
  }

  // ---------------------------------------------------------------- the loops over vectors

  method WriteVector<T>(f: Format<T>, xs: seq<T>) returns (os: string)
    ensures os == Vector(f).put(xs)
  {
    os := Digits(|xs|) + [' '];
    for k := 0 to |xs|
      invariant os + PrintItems(f, xs[k..]) == PrintVector(f, xs)
    {
      Assoc(os, f.put(xs[k]), [' '] + PrintItems(f, xs[k + 1..]));
      Assoc(os + f.put(xs[k]), [' '], PrintItems(f, xs[k + 1..]));
      assert xs[k..][1..] == xs[k + 1..];
      os := os + f.put(xs[k]) + [' '];
    }
  }

  method TakeVector<T>(f: Format<T>, stream: string) returns (r: Result<seq<T>>)
    ensures r == Vector(f).read(stream)
  {
    var size := ReadUnsigned(stream);
    if size.Fail? {
      return Fail;
    }
    var xs, rest := [], size.rest;
    for i := 0 to size.value
      invariant ReadVector(f, stream) == ReadItems(f, size.value - i, xs, rest)
    {
      var elem := f.read(rest);
      if elem.Fail? {
        return Fail;
      }
      xs, rest := xs + [elem.value], elem.rest;
    }
    return Ok(xs, rest);
  }

  lemma OneLineConcat(a: string, b: string)
    requires OneLine(a) && OneLine(b)
    ensures OneLine(a + b)
  {
  }

  // ---------------------------------------------------------------- words and numbers are good

  lemma {:induction false} WordSpanOf(w: string, rest: string)
    requires Delimited(rest) && forall j :: 0 <= j < |w| ==> !IsSpace(w[j])
    ensures WordSpan(w + rest) == |w|
  {
    if w == [] {
      assert w + rest == rest;
    } else {
      assert (w + rest)[1..] == w[1..] + rest;
      WordSpanOf(w[1..], rest);
    }
  }

  lemma {:induction false} WordSpanIsWord(s: string)
    ensures forall j :: 0 <= j < WordSpan(s) ==> !IsSpace(s[j])
  {
    if s != [] && !IsSpace(s[0]) { WordSpanIsWord(s[1..]); }
  }

  lemma {:induction false} SkipSpaceStops(s: string)
    ensures SkipSpace(s) == [] || !IsSpace(SkipSpace(s)[0])
  {
    if s != [] && IsSpace(s[0]) { SkipSpaceStops(s[1..]); }
  }

  lemma SkipOneSpace(s: string)
    ensures SkipSpace([' '] + s) == SkipSpace(s)
  {
  }

  lemma WordIsGood()
    ensures Good(WORD)
  {
    forall w, rest
      ensures ReadsBack(WORD, w, rest)
    {
      if IsWord(w) && Delimited(rest) {
        WordSpanOf(w, rest);
        assert (w + rest)[..|w|] == w && (w + rest)[|w|..] == rest == "" + rest;
      }
    }
    forall s
      ensures ReadsFitting(WORD, s)
    {
      SkipOneSpace(s);
      SkipSpaceStops(s);
      WordSpanIsWord(SkipSpace(s));
    }
    forall w
      ensures PrintsLine(WORD, w)
    {
    }
  }

  lemma {:induction false} DigitSpanOf(d: string, rest: string)
    requires Delimited(rest) && forall j :: 0 <= j < |d| ==> IsDigit(d[j])
    ensures DigitSpan(d + rest) == |d|
  {
    if d == [] {
      assert d + rest == rest;
    } else {
      assert (d + rest)[1..] == d[1..] + rest;
      DigitSpanOf(d[1..], rest);
    }
  }

  lemma {:induction false} ValueOfDigits(n: nat)
    ensures forall j :: 0 <= j < |Digits(n)| ==> IsDigit(Digits(n)[j])
    ensures DecimalValue(Digits(n)) == n
  {
    DigitsAreDigits(n);
    if n >= 10 {
      ValueOfDigits(n / 10);
      assert Digits(n)[..|Digits(n)| - 1] == Digits(n / 10);
    }
  }

  /** Any integer is read back, with its sign, up to the next space. */
  lemma ReadSignedOf(n: int, rest: string)
    requires Delimited(rest)
    ensures ReadSigned(IntText(n) + rest) == Ok((n < 0, if n < 0 then -n else n), rest)
  {
    var m := if n < 0 then -n else n;
    var d := Digits(m);
    ValueOfDigits(m);
    DigitSpanOf(d, rest);
    var t := IntText(n) + rest;
    assert t[0] == IntText(n)[0];
    assert SkipSpace(t) == t;
    assert n < 0 ==> t[1..] == d + rest;
    assert (d + rest)[..|d|] == d && (d + rest)[|d|..] == rest;
  }

  lemma ReadSignedSkips(s: string)
    ensures ReadSigned([' '] + s) == ReadSigned(s)
  {
  }

  lemma IntTextIsOneLine(n: int)
    ensures OneLine(IntText(n))
  {
    DigitsAreDigits(if n < 0 then -n else n);
  }

  lemma UnsignedIsGood()
    ensures Good(UNSIGNED)
  {
    forall n: nat, rest
      ensures ReadsBack(UNSIGNED, n, rest)
    {
      if Delimited(rest) {
        ReadSignedOf(n, rest);
        assert "" + rest == rest;
      }
    }
    forall s
      ensures ReadsFitting(UNSIGNED, s)
    {
      ReadSignedSkips(s);
    }
    forall n: nat
      ensures PrintsLine(UNSIGNED, n)
    {
      IntTextIsOneLine(n);
    }
  }

  lemma IntIsGood()
    ensures Good(INT)
  {
    forall n, rest
      ensures ReadsBack(INT, n, rest)
    {
      if Delimited(rest) {
        ReadSignedOf(n, rest);
        assert "" + rest == rest;
      }
    }
    forall s
      ensures ReadsFitting(INT, s)
    {
      ReadSignedSkips(s);
    }
    forall n
      ensures PrintsLine(INT, n)
    {
      IntTextIsOneLine(n);
    }
  }

  lemma FlagIsGood()
    ensures Good(FLAG)
  {
    forall b, rest
      ensures ReadsBack(FLAG, b, rest)
    {
      if Delimited(rest) {
        ReadSignedOf(if b then 1 else 0, rest);
        assert IntText(1) == "1" && IntText(0) == "0";
        assert "" + rest == rest;
      }
    }
    forall s
      ensures ReadsFitting(FLAG, s)
    {
      ReadSignedSkips(s);
    }
  }

  // ---------------------------------------------------------------- the combinators keep formats good

  lemma PairReadsBack<A(!new), B(!new)>(f: Format<A>, g: Format<B>, p: (A, B), rest: string)
    requires Good(f) && Good(g) && f.trail == ""
    ensures ReadsBack(Pair(f, g), p, rest)
  {
    if f.fits(p.0) && g.fits(p.1) && Delimited(rest) {
      var tail := [' '] + (g.put(p.1) + rest);
      Assoc4(f.put(p.0), [' '], g.put(p.1), rest);
      assert ReadsBack(f, p.0, tail) && "" + tail == tail;
      assert ReadsFitting(g, g.put(p.1) + rest) && ReadsBack(g, p.1, rest);
    }
  }

  lemma PairPrintsLine<A(!new), B(!new)>(f: Format<A>, g: Format<B>, p: (A, B))
    requires Good(f) && Good(g)
    ensures PrintsLine(Pair(f, g), p)
  {
    assert PrintsLine(f, p.0) && PrintsLine(g, p.1);
    if f.fits(p.0) && g.fits(p.1) {
      OneLineConcat([' '], g.put(p.1));
      OneLineConcat(f.put(p.0), [' '] + g.put(p.1));
    }
  }

  lemma PairIsGood<A(!new), B(!new)>(f: Format<A>, g: Format<B>)
    requires Good(f) && Good(g) && f.trail == ""
    ensures Good(Pair(f, g))
  {
    var h := Pair(f, g);
    forall p: (A, B), rest ensures ReadsBack(h, p, rest) { PairReadsBack(f, g, p, rest); }
    forall p: (A, B) ensures PrintsLine(h, p) { PairPrintsLine(f, g, p); }
    forall s
      ensures ReadsFitting(h, s)
    {
      assert ReadsFitting(f, s);
      if f.read(s).Ok? { assert ReadsFitting(g, f.read(s).rest); }
    }
  }

  lemma ViaIsGood<A(!new), B(!new)>(f: Format<A>, make: A -> B, take: B -> A)
    requires Good(f) && (forall a :: take(make(a)) == a) && (forall b :: make(take(b)) == b)
    ensures Good(Via(f, make, take)) && Via(f, make, take).trail == f.trail
  {
    var h := Via(f, make, take);
    forall b, rest
      ensures ReadsBack(h, b, rest)
    {
      assert ReadsBack(f, take(b), rest);
    }
    forall b
      ensures PrintsLine(h, b)
    {
      assert PrintsLine(f, take(b));
    }
    forall s
      ensures ReadsFitting(h, s)
    {
      assert ReadsFitting(f, s);
    }
  }

  /** The first of the printed elements, behind a space. */
  lemma ItemReadsBack<T(!new)>(f: Format<T>, xs: seq<T>, rest: string)
    requires Good(f) && f.trail == "" && xs != [] && f.fits(xs[0])
    ensures f.read([' '] + (PrintItems(f, xs) + rest)) == Ok(xs[0], [' '] + (PrintItems(f, xs[1..]) + rest))
  {
    var tail := [' '] + (PrintItems(f, xs[1..]) + rest);
    assert PrintItems(f, xs) + rest == f.put(xs[0]) + tail by {
      Assoc(f.put(xs[0]), [' '] + PrintItems(f, xs[1..]), rest);
      Assoc([' '], PrintItems(f, xs[1..]), rest);
    }
    assert ReadsFitting(f, f.put(xs[0]) + tail) && ReadsBack(f, xs[0], tail) && "" + tail == tail;
  }

  lemma {:induction false} ItemsReadBack<T(!new)>(f: Format<T>, xs: seq<T>, read: seq<T>, rest: string)
    requires Good(f) && f.trail == "" && forall j :: 0 <= j < |xs| ==> f.fits(xs[j])
    ensures ReadItems(f, |xs|, read, [' '] + (PrintItems(f, xs) + rest)) == Ok(read + xs, [' '] + rest)
    decreases |xs|
  {
    if xs == [] {
      assert read + xs == read && PrintItems(f, xs) + rest == rest;
    } else {
      ItemReadsBack(f, xs, rest);
      ItemsReadBack(f, xs[1..], read + [xs[0]], rest);
      assert read + [xs[0]] + xs[1..] == read + xs;
    }
  }

  lemma {:induction false} ReadItemsFit<T(!new)>(f: Format<T>, n: nat, xs: seq<T>, s: string)
    requires Good(f) && forall j :: 0 <= j < |xs| ==> f.fits(xs[j])
    ensures var r := ReadItems(f, n, xs, s);
            r.Ok? ==> |r.value| == |xs| + n && forall j :: 0 <= j < |r.value| ==> f.fits(r.value[j])
  {
    if n > 0 {
      assert ReadsFitting(f, s);
      if f.read(s).Ok? { ReadItemsFit(f, n - 1, xs + [f.read(s).value], f.read(s).rest); }
    }
  }

  lemma {:induction false} ItemsAreOneLine<T(!new)>(f: Format<T>, xs: seq<T>)
    requires Good(f) && forall j :: 0 <= j < |xs| ==> f.fits(xs[j])
    ensures OneLine(PrintItems(f, xs)) && (xs != [] ==> EndsInSpace(PrintItems(f, xs)))
  {
    if xs != [] {
      assert PrintsLine(f, xs[0]);
      ItemsAreOneLine(f, xs[1..]);
    }
  }

  lemma ReadVectorOf<T(!new)>(f: Format<T>, xs: seq<T>, rest: string)
    requires Good(f) && f.trail == "" && VectorFits(f, xs)
    ensures ReadVector(f, Digits(|xs|) + ([' '] + (PrintItems(f, xs) + rest))) == Ok(xs, [' '] + rest)
  {
    ReadSignedOf(|xs|, [' '] + (PrintItems(f, xs) + rest));
    ItemsReadBack(f, xs, [], rest);
    assert [] + xs == xs;
  }

  lemma Assoc4(a: string, b: string, c: string, d: string)
    ensures a + (b + c) + d == a + (b + (c + d))
  {
    Assoc(a, b + c, d);
    Assoc(b, c, d);
  }

  lemma VectorReadsBack<T(!new)>(f: Format<T>, xs: seq<T>, rest: string)
    requires Good(f) && f.trail == ""
    ensures ReadsBack(Vector(f), xs, rest)
  {
    if VectorFits(f, xs) && Delimited(rest) {
      Assoc4(Digits(|xs|), [' '], PrintItems(f, xs), rest);
      ReadVectorOf(f, xs, rest);
    }
  }

  lemma VectorPrintsLine<T(!new)>(f: Format<T>, xs: seq<T>)
    requires Good(f)
    ensures PrintsLine(Vector(f), xs)
  {
    if VectorFits(f, xs) {
      IntTextIsOneLine(|xs|);
      ItemsAreOneLine(f, xs);
      OneLineConcat([' '], PrintItems(f, xs));
      OneLineConcat(Digits(|xs|), [' '] + PrintItems(f, xs));
    }
  }

  lemma VectorIsGood<T(!new)>(f: Format<T>)
    requires Good(f) && f.trail == ""
    ensures Good(Vector(f))
  {
    var h := Vector(f);
    forall xs, rest ensures ReadsBack(h, xs, rest) { VectorReadsBack(f, xs, rest); }
    forall xs ensures PrintsLine(h, xs) { VectorPrintsLine(f, xs); }
    forall s
      ensures ReadsFitting(h, s)
    {
      ReadSignedSkips(s);
      if ReadUnsigned(s).Ok? { ReadItemsFit(f, ReadUnsigned(s).value, [], ReadUnsigned(s).rest); }
    }
  }
}
