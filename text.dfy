/**
 * The few string operations the beacon app relies on: JavaScript's decimal
 * rendering of numbers (template literals and `toString()`), `padStart`, and
 * ASCII `toLowerCase`, together with the facts that make identities and keys
 * built from them unambiguous.
 */
module Text {

  predicate IsDigit(c: char) {
    '0' <= c <= '9'
  }

  predicate AllDigits(s: string) {
    forall i :: 0 <= i < |s| ==> IsDigit(s[i])
  }

  /** True when `c` does not occur in `s`. */
  predicate Lacks(s: string, c: char) {
    forall i :: 0 <= i < |s| ==> s[i] != c
  }

  function DigitChar(d: nat): (c: char)
    requires d < 10
    ensures IsDigit(c) && c as int - '0' as int == d
  {
    (d + '0' as int) as char
  }

  function DigitValue(c: char): (d: nat)
    requires IsDigit(c)
    ensures d < 10 && DigitChar(d) == c
  {
    c as int - '0' as int
  }

  /** Decimal rendering of a natural number, as JavaScript's `String(n)` gives it. */
  function NatString(n: nat): (s: string)
    ensures AllDigits(s)
    ensures |s| >= 1
    ensures |s| == 1 <==> n < 10
    ensures s[0] == '0' ==> n == 0
  {
    if n < 10 then [DigitChar(n)] else NatString(n / 10) + [DigitChar(n % 10)]
  }

  /** The number a string of decimal digits denotes (leading zeros allowed). */
  function DigitsValue(s: string): nat
    requires AllDigits(s)
  {
    if s == [] then 0 else DigitsValue(s[..|s| - 1]) * 10 + DigitValue(s[|s| - 1])
  }

  /** Reading back what `NatString` wrote gives the number again. */
  lemma {:induction false} NatStringRoundTrip(n: nat)
    ensures DigitsValue(NatString(n)) == n
  {
    if n >= 10 {
      var s := NatString(n);
      assert s[..|s| - 1] == NatString(n / 10);
      NatStringRoundTrip(n / 10);
    }
  }

  /** Leading zeros do not change the value of a digit string. */
  lemma {:induction false} LeadingZeroValue(s: string)
    requires AllDigits(s)
    ensures AllDigits("0" + s) && DigitsValue("0" + s) == DigitsValue(s)
  {
    if s != [] {
      var t := "0" + s;
      assert t[..|t| - 1] == "0" + s[..|s| - 1];
      LeadingZeroValue(s[..|s| - 1]);
    }
  }

  /** Decimal rendering of an integer, with a leading '-' for negatives. */
  function IntString(z: int): (s: string)
    ensures |s| >= 1
    ensures forall i :: 0 <= i < |s| ==> IsDigit(s[i]) || s[i] == '-'
  {
    if z < 0 then "-" + NatString(-z) else NatString(z)
  }

  /** The integer denoted by a string `IntString` can produce. */
  function IntValue(s: string): int
    requires |s| >= 1
    requires (s[0] == '-' && AllDigits(s[1..])) || AllDigits(s)
  {
    if s[0] == '-' then 0 - DigitsValue(s[1..]) else DigitsValue(s)
  }

  lemma IntStringRoundTrip(z: int)
    ensures var s := IntString(z);
      ((s[0] == '-' && AllDigits(s[1..])) || AllDigits(s)) && IntValue(s) == z
  {
    if z < 0 {
      assert IntString(z)[1..] == NatString(-z);
      NatStringRoundTrip(-z);
    } else {
      NatStringRoundTrip(z);
    }
  }

  lemma IntStringInjective(a: int, b: int)
    requires IntString(a) == IntString(b)
    ensures a == b
  {
    IntStringRoundTrip(a);
    IntStringRoundTrip(b);
  }

  /** JavaScript's `s.padStart(width, fill)` for a one-character fill. */
  function PadStart(s: string, width: nat, fill: char): (r: string)
    ensures |r| == if |s| >= width then |s| else width
    ensures r[|r| - |s|..] == s
    ensures forall i :: 0 <= i < |r| - |s| ==> r[i] == fill
  {
    if |s| >= width then s else seq(width - |s|, _ => fill) + s
  }

  function LowerChar(c: char): char {
    if 'A' <= c <= 'Z' then (c as int - 'A' as int + 'a' as int) as char else c
  }

  /** JavaScript's `toLowerCase()` restricted to the ASCII letters. */
  function ToLowerAscii(s: string): (r: string)
    ensures |r| == |s|
    ensures forall i :: 0 <= i < |s| ==> r[i] == LowerChar(s[i])
  {
    seq(|s|, i requires 0 <= i < |s| => LowerChar(s[i]))
  }

  /** Index of the last occurrence of `c` in `s`, or -1. */
  function LastIndexOf(s: string, c: char): (r: int)
    ensures -1 <= r < |s|
    ensures r >= 0 ==> s[r] == c
  {
    if s == [] then -1
    else if s[|s| - 1] == c then |s| - 1
    else LastIndexOf(s[..|s| - 1], c)
  }

  /** An occurrence of `c` followed only by other characters is the last one. */
  lemma {:induction false} LastIndexOfAt(s: string, c: char, i: nat)
    requires i < |s| && s[i] == c
    requires Lacks(s[i + 1..], c)
    ensures LastIndexOf(s, c) == i
  {
    if i < |s| - 1 {
      assert s[|s| - 1] == s[i + 1..][|s| - 2 - i];
      assert s[..|s| - 1][i + 1..] == s[i + 1..][..|s| - 2 - i];
      LastIndexOfAt(s[..|s| - 1], c, i);
    }
  }

  /**
   * A string `a + sep + d` splits back uniquely when the last character of
   * `sep` never occurs in the tail `d`: the tail is everything after the last
   * occurrence of that character.
   */
  lemma SeparatedSplitUnique(a1: string, d1: string, a2: string, d2: string, sep: string)
    requires |sep| >= 1
    requires Lacks(d1, sep[|sep| - 1]) && Lacks(d2, sep[|sep| - 1])
    requires a1 + sep + d1 == a2 + sep + d2
    ensures a1 == a2 && d1 == d2
  {
    var s, c := a1 + sep + d1, sep[|sep| - 1];
    assert s[|a1| + |sep| - 1] == c && s[|a1| + |sep|..] == d1;
    assert s[|a2| + |sep| - 1] == c && s[|a2| + |sep|..] == d2;
    LastIndexOfAt(s, c, |a1| + |sep| - 1);
    LastIndexOfAt(s, c, |a2| + |sep| - 1);
    assert a1 == s[..|a1|] && a2 == s[..|a2|];
  }
}
