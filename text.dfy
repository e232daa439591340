/**
 * Text helpers the core relies on: ASCII case mapping (Python's `str.lower()`
 * restricted to ASCII letters) and the decimal rendering of an integer
 * (Python's `"%s" % n`), with a parser that inverts it.
 */
module Text {
  import opened Wrappers

  function LowerChar(c: char): char {
    if 'A' <= c <= 'Z' then (c as int + 32) as char else c
  }

  function UpperChar(c: char): char {
    if 'a' <= c <= 'z' then (c as int - 32) as char else c
  }

  /** `s.lower()`: every ASCII capital replaced by its small letter, nothing else changed. */
  function ToLower(s: string): (r: string)
    ensures |r| == |s|
    ensures forall i :: 0 <= i < |s| ==> r[i] == LowerChar(s[i])
    ensures forall i :: 0 <= i < |s| ==> !('A' <= r[i] <= 'Z')
  {
    seq(|s|, i requires 0 <= i < |s| => LowerChar(s[i]))
  }

  /** `s.upper()` on ASCII letters. */
  function ToUpper(s: string): (r: string)
    ensures |r| == |s|
    ensures forall i :: 0 <= i < |s| ==> !('a' <= r[i] <= 'z')
  {
    seq(|s|, i requires 0 <= i < |s| => UpperChar(s[i]))
  }

  /** Upper-casing a token first does not change what it lowercases to. */
  lemma LowerOfUpper(s: string)
    ensures ToLower(ToUpper(s)) == ToLower(s)
  {
  }

  /** A string without ASCII capitals is its own lowercase form. */
  lemma LowerOfLowercase(s: string)
    requires forall i :: 0 <= i < |s| ==> !('A' <= s[i] <= 'Z')
    ensures ToLower(s) == s
  {
  }

  predicate IsDigit(c: char) {
    '0' <= c <= '9'
  }

  function DigitChar(d: nat): (c: char)
    requires d < 10
    ensures IsDigit(c) && c as int - '0' as int == d
  {
    ('0' as int + d) as char
  }

  /** The decimal digits of `n`, most significant first, without leading zeros. */
  function NatDigits(n: nat): string
    decreases n
  {
    if n < 10 then [DigitChar(n)] else NatDigits(n / 10) + [DigitChar(n % 10)]
  }

  /** `"%s" % n` for a Python int: an optional minus sign followed by the digits of |n|. */
  function DecimalString(n: int): string {
    if n < 0 then "-" + NatDigits(-n) else NatDigits(n)
  }

  /** The value of a non-empty string of decimal digits. */
  function DigitsValue(s: string): nat
    requires forall i :: 0 <= i < |s| ==> IsDigit(s[i])
    decreases |s|
  {
    if s == [] then 0
    else
      assert IsDigit(s[|s| - 1]);
      DigitsValue(s[..|s| - 1]) * 10 + (s[|s| - 1] as int - '0' as int) as nat
  }

  /** Python's `int(s)` on the strings `DecimalString` produces. */
  function ParseDecimal(s: string): Option<int> {
    if |s| > 0 && s[0] == '-' then
      var t := s[1..];
      if |t| > 0 && forall i :: 0 <= i < |t| ==> IsDigit(t[i]) then var v: int := DigitsValue(t); Some(-v) else None
    else if |s| > 0 && forall i :: 0 <= i < |s| ==> IsDigit(s[i]) then Some(DigitsValue(s))
    else None
  }

  /** The rendering of a natural is a non-empty string of digits whose value is the natural. */
  lemma {:induction false} DigitsRoundTrip(n: nat)
    ensures |NatDigits(n)| > 0
    ensures forall i :: 0 <= i < |NatDigits(n)| ==> IsDigit(NatDigits(n)[i])
    ensures DigitsValue(NatDigits(n)) == n
    decreases n
  {
    if n >= 10 {
      DigitsRoundTrip(n / 10);
      var r := NatDigits(n);
      var front := NatDigits(n / 10);
      assert r == front + [DigitChar(n % 10)];
      forall i | 0 <= i < |r| ensures IsDigit(r[i]) {
        if i < |front| {
          assert r[i] == front[i];
        }
      }
      assert r[..|r| - 1] == front;
    }
  }

  /** Parsing the decimal rendering of an integer gives the integer back. */
  lemma DecimalRoundTrip(n: int)
    ensures ParseDecimal(DecimalString(n)) == Some(n)
  {
    if n < 0 {
      var m: nat := -n;
      var digits := NatDigits(m);
      DigitsRoundTrip(m);
      var s := "-" + digits;
      assert s[1..] == digits;
      assert forall i :: 0 <= i < |s[1..]| ==> IsDigit(s[1..][i]);
    } else {
      DigitsRoundTrip(n);
      assert IsDigit(NatDigits(n)[0]);
    }
  }

  /** Distinct integers render as distinct strings. */
  lemma DecimalInjective(a: int, b: int)
    ensures DecimalString(a) == DecimalString(b) <==> a == b
  {
    DecimalRoundTrip(a);
    DecimalRoundTrip(b);
  }

  /** A common prefix followed by distinct decimal numbers gives distinct strings. */
  lemma PrefixedDecimalInjective(prefix: string, a: int, b: int)
    ensures prefix + DecimalString(a) == prefix + DecimalString(b) <==> a == b
  {
    if prefix + DecimalString(a) == prefix + DecimalString(b) {
      assert DecimalString(a) == (prefix + DecimalString(a))[|prefix|..];
      assert DecimalString(b) == (prefix + DecimalString(b))[|prefix|..];
      DecimalInjective(a, b);
    }
  }
}
