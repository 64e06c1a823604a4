/**
 * The two pieces of Python text handling the core relies on: formatting an
 * `int` in an f-string (`f"...{status_code}"`) and `str.lower()` as used to
 * recognise the chat commands.
 */
module Text {
  import opened Wrappers

  predicate IsDigit(c: char) {
    '0' <= c <= '9'
  }

  predicate AllDigits(s: string) {
    forall i :: 0 <= i < |s| ==> IsDigit(s[i])
  }

  function DigitChar(d: nat): (c: char)
    requires d < 10
    ensures IsDigit(c) && c as int - '0' as int == d
  {
    ('0' as int + d) as char
  }

  function DigitValue(c: char): nat
    requires IsDigit(c)
  {
    c as int - '0' as int
  }

  /** Decimal notation of a natural number, without leading zeros. */
  function NatToString(n: nat): (s: string)
    ensures |s| >= 1 && AllDigits(s)
    ensures s[0] == '0' ==> n == 0
    decreases n
  {
    if n < 10 then [DigitChar(n)] else NatToString(n / 10) + [DigitChar(n % 10)]
  }

  /** How Python renders an `int` inside an f-string: a '-' sign, then the digits. */
  function IntToString(i: int): (s: string)
    ensures |s| >= 1
  {
    if i < 0 then "-" + NatToString(-i) else NatToString(i)
  }

  /** The value of a string of decimal digits (independent of NatToString). */
  function DigitsValue(s: string): nat
    requires AllDigits(s)
  {
    if |s| == 0 then 0 else DigitsValue(s[..|s| - 1]) * 10 + DigitValue(s[|s| - 1])
  }

  /** Reads back an optionally signed decimal integer; None for anything else. */
  function ParseInt(s: string): (r: Option<int>)
    ensures r.Some? ==> |s| >= 1
  {
    if |s| >= 2 && s[0] == '-' && AllDigits(s[1..]) then Some(0 - DigitsValue(s[1..]) as int)
    else if |s| >= 1 && AllDigits(s) then Some(DigitsValue(s))
    else None
  }

  lemma {:induction false} NatToStringRoundTrip(n: nat)
    ensures DigitsValue(NatToString(n)) == n
    decreases n
  {
    if n >= 10 {
      var s := NatToString(n);
      assert s[..|s| - 1] == NatToString(n / 10);
      NatToStringRoundTrip(n / 10);
    }
  }

  lemma {:induction false} ParseDigits(d: string)
    requires |d| >= 1 && AllDigits(d)
    ensures ParseInt(d) == Some(DigitsValue(d))
  {
    assert IsDigit(d[0]);
  }

  lemma {:induction false} ParseNegative(d: string)
    requires |d| >= 1 && AllDigits(d)
    ensures ParseInt("-" + d) == Some(0 - DigitsValue(d) as int)
  {
    var s := "-" + d;
    assert s[0] == '-' && s[1..] == d;
  }

  /** Formatting an int and reading it back gives the same int. */
  lemma {:induction false} IntToStringRoundTrip(i: int)
    ensures ParseInt(IntToString(i)) == Some(i)
  {
    if i < 0 {
      assert IntToString(i) == "-" + NatToString(-i);
      NatToStringRoundTrip(-i);
      ParseNegative(NatToString(-i));
      assert 0 - DigitsValue(NatToString(-i)) as int == i;
    } else {
      assert IntToString(i) == NatToString(i);
      NatToStringRoundTrip(i);
      ParseDigits(NatToString(i));
    }
  }

  /** Distinct ints render to distinct strings. */
  lemma {:induction false} IntToStringInjective(a: int, b: int)
    requires IntToString(a) == IntToString(b)
    ensures a == b
  {
    IntToStringRoundTrip(a);
    IntToStringRoundTrip(b);
  }

  /** The code that a message `prefix + code` carries after its prefix. */
  function CodeAfter(message: string, prefix: string): Option<int> {
    if prefix <= message then ParseInt(message[|prefix|..]) else None
  }

  lemma {:induction false} CodeAfterPrefix(prefix: string, code: int)
    ensures CodeAfter(prefix + IntToString(code), prefix) == Some(code)
  {
    assert (prefix + IntToString(code))[|prefix|..] == IntToString(code);
    IntToStringRoundTrip(code);
  }

  predicate IsAsciiUpper(c: char) {
    'A' <= c <= 'Z'
  }

  predicate IsAsciiLower(c: char) {
    'a' <= c <= 'z'
  }

  function LowerChar(c: char): char {
    if IsAsciiUpper(c) then (c as int + 32) as char else c
  }

  function UpperChar(c: char): char {
    if IsAsciiLower(c) then (c as int - 32) as char else c
  }

  /** `str.lower()` on the ASCII letters; every other character is kept. */
  function Lower(s: string): string {
    if |s| == 0 then [] else [LowerChar(s[0])] + Lower(s[1..])
  }

  /**
   * `s` spells the lower-case word `w` in some mix of upper and lower case:
   * a definition by characters that does not go through Lower.
   */
  predicate IsCapitalisationOf(s: string, w: string) {
    |s| == |w| && forall i :: 0 <= i < |s| ==> s[i] == w[i] || s[i] == UpperChar(w[i])
  }

  predicate IsLowerWord(w: string) {
    forall i :: 0 <= i < |w| ==> IsAsciiLower(w[i])
  }

  /** Lower-casing yields a lower-case word exactly for its capitalisations. */
  lemma {:induction false} LowerMatchesCapitalisation(s: string, w: string)
    requires IsLowerWord(w)
    ensures Lower(s) == w <==> IsCapitalisationOf(s, w)
    decreases |s|
  {
    if |s| > 0 && |w| > 0 {
      LowerMatchesCapitalisation(s[1..], w[1..]);
      assert Lower(s) == [LowerChar(s[0])] + Lower(s[1..]);
      if IsCapitalisationOf(s, w) {
        assert IsCapitalisationOf(s[1..], w[1..]) by {
          forall i | 0 <= i < |s| - 1 ensures s[1..][i] == w[1..][i] || s[1..][i] == UpperChar(w[1..][i]) {
            assert s[i + 1] == w[i + 1] || s[i + 1] == UpperChar(w[i + 1]);
          }
        }
      }
      if Lower(s) == w {
        assert LowerChar(s[0]) == w[0];
        assert Lower(s[1..]) == w[1..];
        forall i | 0 <= i < |s| ensures s[i] == w[i] || s[i] == UpperChar(w[i]) {
          if i > 0 {
            assert s[1..][i - 1] == w[1..][i - 1] || s[1..][i - 1] == UpperChar(w[1..][i - 1]);
          }
        }
      }
    } else if |s| > 0 {
      assert Lower(s) != w;
    } else if |w| > 0 {
      assert Lower(s) == [];
    }
  }
}
