/** Whitespace and numbers of a JSON text as RFC 8259 (sections 2 and 6) defines them, and what
    the parser makes of them (json11.cpp:357-373, 491-540).  */
module JsonNumbers {
  import opened Basics
  import opened Decimals
  import opened JsonText
  import opened JsonParsing

  // ---------------------------------------------------------------- whitespace

  /** Space, horizontal tab, line feed or carriage return. */
  predicate IsWhite(c: char) { c as int in {0x20, 0x09, 0x0a, 0x0d} }

  ghost predicate Gap(s: Bytes, i: nat, j: nat) {
    i <= j <= |s| && forall k :: i <= k < j ==> IsWhite(s[k])
  }

  /** Whitespace is skipped as far as it goes. */
  lemma {:induction false} SkipsExactlyWhite(s: Bytes, i: nat, j: nat)
    requires i <= |s|
    ensures SkipSpace(s, i) == j <==> Gap(s, i, j) && (j == |s| || !IsWhite(s[j]))
    decreases |s| - i
  {
    if i < |s| && IsSpace(s[i]) {
      SkipsExactlyWhite(s, i + 1, j);
      assert Gap(s, i, j) && j > i ==> Gap(s, i + 1, j);
    }
  }

  /** A token is the next character that is not whitespace, wherever it stands. */
  ghost predicate TokenAfter(s: Bytes, i: nat, c: char, k: nat) {
    0 < k <= |s| && i < k && Gap(s, i, k - 1) && s[k - 1] == c && !IsWhite(c)
  }

  lemma ReadsExactlyTokens(s: Bytes, i: nat, c: char, k: nat)
    requires i <= |s|
    ensures NextToken(s, i) == Ok(c, k) <==> TokenAfter(s, i, c, k)
  {
    if k > 0 { SkipsExactlyWhite(s, i, k - 1); }
    SkipsExactlyWhite(s, i, SkipSpace(s, i));
  }

  // ---------------------------------------------------------------- numbers

  ghost predicate AllDigits(s: Bytes, i: nat, j: nat) {
    i <= j <= |s| && forall k :: i <= k < j ==> '0' <= s[k] <= '9'
  }

  predicate DigitAt(s: Bytes, i: nat) { i < |s| && '0' <= s[i] <= '9' }

  predicate CharIs(s: Bytes, i: nat, c: char) { i < |s| && s[i] == c }

  /** All the digits from i on, at least one, end at j. */
  ghost predicate Run(s: Bytes, i: nat, j: nat) { i < j && AllDigits(s, i, j) && !DigitAt(s, j) }

  /** An integer part has no leading zero. */
  ghost predicate IntegerAt(s: Bytes, i: nat, j: nat) { Run(s, i, j) && (s[i] == '0' ==> j == i + 1) }

  ghost predicate FractionAt(s: Bytes, i: nat, j: nat) {
    if CharIs(s, i, '.') then Run(s, i + 1, j) else j == i
  }

  predicate SignAt(s: Bytes, i: nat) { CharIs(s, i, '+') || CharIs(s, i, '-') }

  ghost predicate ExponentAt(s: Bytes, i: nat, j: nat) {
    if CharIs(s, i, 'e') || CharIs(s, i, 'E') then Run(s, if SignAt(s, i + 1) then i + 2 else i + 1, j) else j == i
  }

  /** The value of decimal digits. */
  function Decimal(t: Bytes): int {
    if t == [] then 0 else 10 * Decimal(t[..|t| - 1]) + (t[|t| - 1] as int - 0x30)
  }

  /** A whole number is itself as long as a double holds it exactly; any other number keeps its
      text. */
  function NumberOf(text: Bytes, whole: bool): Json {
    var minus := text != [] && text[0] == '-';
    var n := if minus then -Decimal(text[1..]) else Decimal(text);
    if whole && (|text| <= 9 || -0x20_0000_0000_0000 <= n <= 0x20_0000_0000_0000) then Number(n) else Double(text)
  }

  /** The number from i to k: a minus sign, an integer part, a fraction and an exponent. */
  ghost predicate NumberAt(s: Bytes, i: nat, k: nat, v: Json) {
    exists a, b :: PartsAt(s, i, a, b, k) && v == NumberOf(s[i..k], a == k)
  }

  ghost predicate PartsAt(s: Bytes, i: nat, a: nat, b: nat, k: nat) {
    && IntegerAt(s, if CharIs(s, i, '-') then i + 1 else i, a) && FractionAt(s, a, b) && ExponentAt(s, b, k)
    && i < k <= |s|
  }

  lemma {:induction false} SkipsExactlyDigits(s: Bytes, i: nat, j: nat)
    requires i <= |s|
    ensures SkipDigits(s, i) == j <==> AllDigits(s, i, j) && !DigitAt(s, j)
    decreases |s| - i
  {
    if DigitAt(s, i) {
      SkipsExactlyDigits(s, i + 1, j);
      assert AllDigits(s, i, j) && j > i ==> AllDigits(s, i + 1, j);
    }
  }

  lemma RunIffSkips(s: Bytes, i: nat, j: nat)
    requires i <= |s|
    ensures Run(s, i, j) <==> DigitAt(s, i) && SkipDigits(s, i + 1) == j
  {
    if DigitAt(s, i) { SkipsExactlyDigits(s, i + 1, j); }
    if DigitAt(s, i) && AllDigits(s, i + 1, j) { assert AllDigits(s, i, j); }
  }

  lemma ReadsExactlyIntegers(s: Bytes, i: nat, j: nat)
    requires i <= |s|
    ensures ParseIntegerPart(s, i) == Ok((), j) <==> IntegerAt(s, i, j)
    ensures DigitAt(s, i) && s[i] == '0' && DigitAt(s, i + 1) ==> ParseIntegerPart(s, i) == Fail(LeadingZero)
  {
    RunIffSkips(s, i, j);
    if DigitAt(s, i) && s[i] == '0' {
      assert Run(s, i, i + 1) <==> !DigitAt(s, i + 1) by { RunIffSkips(s, i, i + 1); }
    }
  }

  lemma ReadsExactlyFractions(s: Bytes, i: nat, j: nat)
    requires i <= |s|
    ensures ParseFraction(s, i) == Ok((), j) <==> FractionAt(s, i, j)
  {
    if i < |s| { RunIffSkips(s, i + 1, j); SkipsFromDigit(s, i + 1); }
  }

  /** Skipping digits from the first one. */
  lemma SkipsFromDigit(s: Bytes, i: nat)
    requires i <= |s|
    ensures DigitAt(s, i) ==> SkipDigits(s, i) == SkipDigits(s, i + 1)
  {
  }

  lemma ReadsExactlyExponents(s: Bytes, i: nat, j: nat)
    requires i <= |s|
    ensures ParseExponent(s, i) == Ok((), j) <==> ExponentAt(s, i, j)
  {
    if i < |s| {
      var k := if SignAt(s, i + 1) then i + 2 else i + 1;
      RunIffSkips(s, k, j);
      SkipsFromDigit(s, k);
    }
  }

  lemma {:induction false} DigitsValueIsDecimal(s: Bytes, i: nat, j: nat)
    requires i <= j <= |s|
    ensures DigitsValue(s, i, j) == Decimal(s[i..j])
    decreases j - i
  {
    if i < j {
      DigitsValueIsDecimal(s, i, j - 1);
      assert s[i..j][..j - i - 1] == s[i..j - 1];
    }
  }

  /** What is made of a whole number. */
  lemma WholeIsNumberOf(s: Bytes, i: nat, first: nat, k: nat)
    requires i < k <= |s| && first == (if CharIs(s, i, '-') then i + 1 else i) && first <= k
    ensures var n := if first > i then -DigitsValue(s, first, k) else DigitsValue(s, first, k);
            (if k - i <= DIGITS10 || -EXACT_DOUBLE <= n <= EXACT_DOUBLE then Number(n) else Double(s[i..k])) == NumberOf(s[i..k], true)
  {
    DigitsValueIsDecimal(s, first, k);
    assert s[i..k][0] == s[i];
    if first > i { assert s[i..k][1..] == s[first..k]; }
  }

  /** Each part decides where the next one starts. */
  lemma PartsAreRead(s: Bytes, i: nat, a: nat, b: nat, k: nat)
    requires i <= |s|
    ensures var first := if CharIs(s, i, '-') then i + 1 else i;
            PartsAt(s, i, a, b, k) <==>
            && ParseIntegerPart(s, first) == Ok((), a) && ParseFraction(s, a) == Ok((), b) && ParseExponent(s, b) == Ok((), k)
  {
    var first := if CharIs(s, i, '-') then i + 1 else i;
    ReadsExactlyIntegers(s, first, a);
    if a <= |s| { ReadsExactlyFractions(s, a, b); }
    if b <= |s| { ReadsExactlyExponents(s, b, k); }
  }

  lemma NumbersAreRead(s: Bytes, i: nat, a: nat, b: nat, k: nat)
    requires i <= |s| && PartsAt(s, i, a, b, k)
    ensures ParseNumber(s, i) == Ok(NumberOf(s[i..k], a == k), k)
  {
    PartsAreRead(s, i, a, b, k);
    var first := if CharIs(s, i, '-') then i + 1 else i;
    if a == k { WholeIsNumberOf(s, i, first, k); }
  }

  lemma PartsOf(s: Bytes, i: nat) returns (a: nat, b: nat, k: nat)
    requires i <= |s| && ParseNumber(s, i).Ok?
    ensures PartsAt(s, i, a, b, k)
  {
    var first := if CharIs(s, i, '-') then i + 1 else i;
    a := ParseIntegerPart(s, first).next;
    b := ParseFraction(s, a).next;
    k := ParseExponent(s, b).next;
    PartsAreRead(s, i, a, b, k);
  }

  /** The parser reads exactly the numbers of RFC 8259, as far as they go. */
  lemma ReadsExactlyNumbers(s: Bytes, i: nat, k: nat, v: Json)
    requires i <= |s|
    ensures ParseNumber(s, i) == Ok(v, k) <==> NumberAt(s, i, k, v)
  {
    if NumberAt(s, i, k, v) {
      var a, b :| PartsAt(s, i, a, b, k) && v == NumberOf(s[i..k], a == k);
      NumbersAreRead(s, i, a, b, k);
    }
    if ParseNumber(s, i) == Ok(v, k) {
      var a, b, k' := PartsOf(s, i);
      NumbersAreRead(s, i, a, b, k');
    }
  }
}
