/** The few `java.lang.String` operations the core relies on. */
module Text {

  /** `s.startsWith(prefix)`: case-sensitive, character by character. */
  predicate StartsWith(s: string, prefix: string) {
    |prefix| <= |s| && s[..|prefix|] == prefix
  }

  /** `s.contains(part)`: `part` occurs somewhere in `s`. */
  predicate Contains(s: string, part: string)
    decreases |s|
  {
    StartsWith(s, part) || (|s| > 0 && Contains(s[1..], part))
  }

  /** `part` occurs in `s` starting at index `i`. */
  predicate OccursAt(s: string, part: string, i: int) {
    0 <= i && i + |part| <= |s| && s[i..i + |part|] == part
  }

  /** `Contains` holds exactly when `part` occurs at some index of `s`. */
  lemma {:induction false} ContainsIffOccurs(s: string, part: string)
    ensures Contains(s, part) <==> exists i :: OccursAt(s, part, i)
    decreases |s|
  {
    if |s| > 0 {
      ContainsIffOccurs(s[1..], part);
      if Contains(s[1..], part) {
        var j :| OccursAt(s[1..], part, j);
        assert s[1..][j..j + |part|] == s[j + 1..j + 1 + |part|];
        assert OccursAt(s, part, j + 1);
      }
      if i :| OccursAt(s, part, i) && i > 0 {
        assert s[1..][i - 1..i - 1 + |part|] == s[i..i + |part|];
        assert OccursAt(s[1..], part, i - 1);
      }
    }
    if StartsWith(s, part) {
      assert OccursAt(s, part, 0);
    }
    if i :| OccursAt(s, part, i) && i == 0 {
      assert StartsWith(s, part);
    }
  }

  /** Whether `c` lies outside the Basic Multilingual Plane, where Java stores it as a surrogate pair. */
  predicate IsAstral(c: char) {
    c as int > 0xFFFF
  }

  /** `s.length()`: the number of UTF-16 code units, two for every astral character. */
  function Utf16Length(s: string): (n: nat)
    ensures |s| <= n <= 2 * |s|
    ensures (forall i :: 0 <= i < |s| ==> !IsAstral(s[i])) ==> n == |s|
    ensures (forall i :: 0 <= i < |s| ==> IsAstral(s[i])) ==> n == 2 * |s|
    ensures |s| == 1 ==> n == (if IsAstral(s[0]) then 2 else 1)
  {
    if |s| == 0 then 0 else Utf16Length(s[..|s| - 1]) + (if IsAstral(s[|s| - 1]) then 2 else 1)
  }

  /** The length of a concatenation is the sum of the lengths; with the one-character case this
      fixes the count of any text, one unit per character and two per astral character. */
  lemma {:induction false} Utf16LengthOfConcat(a: string, b: string)
    ensures Utf16Length(a + b) == Utf16Length(a) + Utf16Length(b)
    decreases |b|
  {
    if |b| == 0 {
      assert a + b == a;
    } else {
      var ab := a + b;
      assert ab[..|ab| - 1] == a + b[..|b| - 1];
      assert ab[|ab| - 1] == b[|b| - 1];
      Utf16LengthOfConcat(a, b[..|b| - 1]);
    }
  }

  /** A character `String.trim()` removes: every code point up to U+0020. */
  predicate IsTrimmed(c: char) {
    c <= ' '
  }

  /** Blank in the sense of `@NotBlank`: nothing is left after `trim()`. */
  predicate IsBlank(s: string) {
    forall i :: 0 <= i < |s| ==> IsTrimmed(s[i])
  }

  function DigitChar(d: nat): char
    requires d < 10
  {
    "0123456789"[d]
  }

  function DigitValue(c: char): nat {
    if '0' <= c <= '9' then (c as int - '0' as int) else 0
  }

  predicate IsDigits(s: string) {
    forall i :: 0 <= i < |s| ==> '0' <= s[i] <= '9'
  }

  /** The decimal digits of `n`, most significant first, without leading zeros. */
  function Digits(n: nat): (r: string)
    ensures 1 <= |r| && IsDigits(r)
    ensures n >= 10 ==> r[0] != '0'
  {
    if n < 10 then [DigitChar(n)] else Digits(n / 10) + [DigitChar(n % 10)]
  }

  /** The value a digit string denotes; the inverse of `Digits`. */
  function ParseDigits(s: string): nat
  {
    if |s| == 0 then 0 else ParseDigits(s[..|s| - 1]) * 10 + DigitValue(s[|s| - 1])
  }

  /** `Long.toString(n)`: a minus sign for negatives, then the digits. */
  function DecimalString(n: int): (r: string)
    ensures 1 <= |r|
    ensures n >= 0 <==> IsDigits(r)
  {
    if n < 0 then
      var r := "-" + Digits(-n);
      assert r[0] == '-';
      r
    else
      Digits(n)
  }

  /** Reading back the digits of `n` gives `n`. */
  lemma {:induction false} ParseDigitsOfDigits(n: nat)
    ensures ParseDigits(Digits(n)) == n
  {
    if n >= 10 {
      var d := Digits(n / 10);
      var s := d + [DigitChar(n % 10)];
      assert s[..|s| - 1] == d;
      ParseDigitsOfDigits(n / 10);
    }
  }

  /** Distinct ids render as distinct decimal strings, so a message names exactly one id. */
  lemma {:induction false} DecimalStringInjective(a: int, b: int)
    requires DecimalString(a) == DecimalString(b)
    ensures a == b
  {
    if a >= 0 && b >= 0 {
      assert DecimalString(a) == Digits(a) && DecimalString(b) == Digits(b);
      DigitsInjective(a, b);
    } else if a < 0 && b < 0 {
      NegativeDigits(a);
      NegativeDigits(b);
      DigitsInjective(-a, -b);
    }
  }

  /** Distinct numbers have distinct digit strings. */
  lemma DigitsInjective(m: nat, n: nat)
    requires Digits(m) == Digits(n)
    ensures m == n
  {
    ParseDigitsOfDigits(m);
    ParseDigitsOfDigits(n);
  }

  /** The digits of a negative number follow its minus sign. */
  lemma NegativeDigits(n: int)
    requires n < 0
    ensures DecimalString(n)[1..] == Digits(-n)
  {
    var d := Digits(-n);
    assert DecimalString(n) == "-" + d;
    assert ("-" + d)[1..] == d;
  }
}
