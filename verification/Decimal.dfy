/** Decimal text: printing integers, and the strict parse that accepts a whole text or nothing. */
module Decimal {
  import opened Wrappers
  import opened Division
  import opened Int32

  predicate IsDigit(c: char) {
    '0' <= c <= '9'
  }

  function DigitChar(d: nat): (c: char)
    requires d < 10
    ensures IsDigit(c) && DigitValue(c) == d
  {
    ['0', '1', '2', '3', '4', '5', '6', '7', '8', '9'][d]
  }

  function DigitValue(c: char): (d: nat)
    requires IsDigit(c)
    ensures d < 10
  {
    (c - '0') as nat
  }

  lemma {:induction false} DigitOfValue(c: char)
    requires IsDigit(c)
    ensures DigitChar(DigitValue(c)) == c
  {
    assert c == '0' || c == '1' || c == '2' || c == '3' || c == '4' || c == '5' || c == '6' || c == '7' || c == '8' ||
           c == '9';
  }

  ghost predicate AllDigits(text: string) {
    forall i :: 0 <= i < |text| ==> IsDigit(text[i])
  }

  /** The shortest decimal text of a number. */
  function NatText(n: nat): (text: string)
    ensures text != [] && AllDigits(text)
  {
    if n < 10 then [DigitChar(n)] else NatText(n / 10) + [DigitChar(n % 10)]
  }

  function IntText(v: int): (text: string)
    ensures text != []
  {
    if v < 0 then ['-'] + NatText(-v) else NatText(v)
  }

  /** One digit at least, and nothing else. */
  function ParseNat(text: string): (r: Option<nat>) {
    if text == [] || !IsDigit(text[|text| - 1]) then None
    else if |text| == 1 then Some(DigitValue(text[0]))
    else
      match ParseNat(text[..|text| - 1])
      case None => None
      case Some(front) => Some(10 * front + DigitValue(text[|text| - 1]))
  }

  lemma {:induction false} ParseNatText(n: nat)
    ensures ParseNat(NatText(n)) == Some(n)
  {
    if n >= 10 {
      ParseNatText(n / 10);
      assert NatText(n)[..|NatText(n)| - 1] == NatText(n / 10);
    }
  }

  lemma {:induction false} ParseNatDigits(text: string)
    ensures ParseNat(text).Some? <==> text != [] && AllDigits(text)
  {
    if |text| > 1 {
      ParseNatDigits(text[..|text| - 1]);
      assert AllDigits(text) <==> AllDigits(text[..|text| - 1]) && IsDigit(text[|text| - 1]);
    }
  }

  /** No superfluous leading zero. */
  predicate Shortest(text: string) {
    |text| == 1 || (text != [] && text[0] != '0')
  }

  lemma {:induction false} NatTextShortest(n: nat)
    ensures Shortest(NatText(n)) && (NatText(n)[0] == '0' <==> n == 0)
  {
    if n >= 10 {
      NatTextShortest(n / 10);
    }
  }

  /** A shortest digit text is the text of its value. */
  lemma {:induction false} ShortestIsText(text: string)
    requires ParseNat(text).Some? && Shortest(text)
    ensures NatText(ParseNat(text).value) == text
  {
    var n := ParseNat(text).value;
    DigitOfValue(text[|text| - 1]);
    if |text| > 1 {
      var front := text[..|text| - 1];
      ParseNatDigits(text);
      ShortestIsText(front);
      var m := ParseNat(front).value;
      NatTextShortest(m);
      assert front[0] == text[0];
      QuotientOf(m, 10, DigitValue(text[|text| - 1]));
      assert m > 0;
      assert text == front + [text[|text| - 1]];
    }
  }

  function SignedValue(negative: bool, n: nat): int {
    if negative then 0 - n else n
  }

  /** A signed 32-bit number; leading zeros are accepted, a plus sign is not. */
  function ParseInt32(text: string): (r: Option<int>)
    ensures r.Some? ==> INT32_MIN <= r.value <= INT32_MAX
  {
    var negative := text != [] && text[0] == '-';
    match ParseNat(if negative then text[1..] else text)
    case None => None
    case Some(n) =>
      var v := SignedValue(negative, n);
      if INT32_MIN <= v <= INT32_MAX then Some(v) else None
  }

  lemma {:induction false} ParseIntText(v: int)
    requires INT32_MIN <= v <= INT32_MAX
    ensures ParseInt32(IntText(v)) == Some(v)
  {
    var n: nat := if v < 0 then -v else v;
    var digits := NatText(n);
    ParseNatText(n);
    if v < 0 {
      assert (['-'] + digits)[1..] == digits;
    } else {
      assert IsDigit(digits[0]);
    }
  }

  /** A text without the given character. */
  ghost predicate Lacks(text: string, c: char) {
    forall i :: 0 <= i < |text| ==> text[i] != c
  }

  lemma {:induction false} IntTextChars(v: int, c: char)
    requires !IsDigit(c) && c != '-'
    ensures Lacks(IntText(v), c)
  {}

  /** The first position of a character, or the length of the text. */
  function Find(text: string, c: char): (k: nat)
    ensures k <= |text| && Lacks(text[..k], c) && (k < |text| ==> text[k] == c)
  {
    if text == [] || text[0] == c then 0
    else
      var k := Find(text[1..], c);
      assert forall i :: 0 < i < k + 1 ==> text[i] == text[1..][i - 1];
      1 + k
  }

  lemma {:induction false} FindAfter(front: string, rest: string, c: char)
    requires Lacks(front, c)
    ensures Find(front + rest, c) == |front| + Find(rest, c)
  {
    if front == [] {
      assert front + rest == rest;
    } else {
      assert (front + rest)[1..] == front[1..] + rest;
      FindAfter(front[1..], rest, c);
    }
  }

  lemma {:induction false} FindSplits(front: string, c: char, rest: string)
    requires Lacks(front, c)
    ensures Find(front + [c] + rest, c) == |front|
  {
    assert front + [c] + rest == front + ([c] + rest);
    FindAfter(front, [c] + rest, c);
  }

  lemma {:induction false} FindNone(text: string, c: char)
    requires Lacks(text, c)
    ensures Find(text, c) == |text|
  {
    assert text + [] == text;
    FindAfter(text, [], c);
  }
}
