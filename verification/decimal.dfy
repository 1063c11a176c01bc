/**
 Decimal text of integers, as PHP writes it (string conversion of an int) and
 reads it (`intval` of a string, and the rule that turns a canonical decimal
 string array key into an integer key). PHP integers are 64-bit; `intval`
 saturates at the bounds, so the width is written out here.
 */
module Decimal {

  import opened Wrappers

  const IntMin: int := -0x8000_0000_0000_0000
  const IntMax: int := 0x7FFF_FFFF_FFFF_FFFF

  predicate InRange(n: int) {
    IntMin <= n <= IntMax
  }

  /** Saturate an unbounded integer to PHP's 64-bit range. */
  function Clamp(n: int): (r: int)
    ensures InRange(r)
    ensures InRange(n) ==> r == n
    ensures n < IntMin ==> r == IntMin
    ensures n > IntMax ==> r == IntMax
  {
    if n < IntMin then IntMin else if n > IntMax then IntMax else n
  }

  predicate IsDigit(c: char) {
    '0' <= c <= '9'
  }

  predicate AllDigits(s: string) {
    forall i :: 0 <= i < |s| ==> IsDigit(s[i])
  }

  function DigitChar(d: nat): (c: char)
    requires d < 10
    ensures IsDigit(c)
    ensures (c as int) - ('0' as int) == d
  {
    ('0' as int + d) as char
  }

  function DigitValue(c: char): (d: nat)
    requires IsDigit(c)
    ensures d < 10 && DigitChar(d) == c
  {
    (c as int - '0' as int) as nat
  }

  /** Value of a string of decimal digits, most significant first. */
  function DigitsValue(s: string): nat
    requires AllDigits(s)
  {
    if s == [] then 0 else DigitsValue(s[..|s| - 1]) * 10 + DigitValue(s[|s| - 1])
  }

  /** Shortest decimal text of a natural number: no leading zero. */
  function NatToString(n: nat): (s: string)
    ensures |s| > 0 && AllDigits(s)
    ensures |s| > 1 ==> s[0] != '0'
  {
    if n < 10 then [DigitChar(n)] else NatToString(n / 10) + [DigitChar(n % 10)]
  }

  /** PHP's string conversion of an integer. */
  function IntToString(n: int): (s: string)
    ensures |s| > 0
    ensures n < 0 <==> s[0] == '-'
    ensures n >= 0 ==> AllDigits(s)
  {
    if n < 0 then "-" + NatToString(-n) else NatToString(n)
  }

  lemma {:induction false} NatToStringValue(n: nat)
    ensures DigitsValue(NatToString(n)) == n
  {
    if n >= 10 {
      var s := NatToString(n);
      NatToStringValue(n / 10);
      assert s[..|s| - 1] == NatToString(n / 10);
      assert DigitValue(s[|s| - 1]) == n % 10;
    }
  }

  /** The whitespace PHP skips before a number. */
  predicate IsSpace(c: char) {
    c == ' ' || c == '\t' || c == '\n' || c == '\r' || c as int == 11 || c as int == 12
  }

  function SkipSpace(s: string): (r: string)
    ensures |r| <= |s| && r == s[|s| - |r|..]
    ensures r == [] || !IsSpace(r[0])
  {
    if s != [] && IsSpace(s[0]) then SkipSpace(s[1..]) else s
  }

  /** The longest prefix of `s` made of digits. */
  function LeadingDigits(s: string): (r: string)
    ensures AllDigits(r) && r <= s
    ensures |r| < |s| ==> !IsDigit(s[|r|])
  {
    if s != [] && IsDigit(s[0]) then [s[0]] + LeadingDigits(s[1..]) else []
  }

  lemma LeadingDigitsOfDigits(s: string)
    requires AllDigits(s)
    ensures LeadingDigits(s) == s
  {
  }

  /**
   PHP's `intval` of a string in base 10: optional leading whitespace, an
   optional sign, then as many digits as follow; anything after is ignored,
   and no digits at all give 0.
   */
  function IntValOfString(s: string): (n: int)
    ensures InRange(n)
    ensures |s| == 0 ==> n == 0
  {
    var t := SkipSpace(s);
    if t != [] && t[0] == '-' then Clamp(-(DigitsValue(LeadingDigits(t[1..])) as int))
    else if t != [] && t[0] == '+' then Clamp(DigitsValue(LeadingDigits(t[1..])))
    else Clamp(DigitsValue(LeadingDigits(t)))
  }

  /** Reading back the decimal text of any 64-bit integer gives the integer. */
  lemma IntToStringRoundTrip(n: int)
    requires InRange(n)
    ensures IntValOfString(IntToString(n)) == n
  {
    var s := IntToString(n);
    assert SkipSpace(s) == s;
    if n < 0 {
      assert s[1..] == NatToString(-n);
      LeadingDigitsOfDigits(NatToString(-n));
      NatToStringValue(-n);
    } else {
      LeadingDigitsOfDigits(s);
      NatToStringValue(n);
    }
  }

  /**
   A string array key that PHP stores as an integer key: the canonical
   decimal text of a 64-bit integer ("5", "-3", "0"; not "05", "-0", "+5").
   */
  function CanonicalInt(s: string): (r: Option<int>)
    ensures r.Some? ==> InRange(r.value) && s == IntToString(r.value)
  {
    var n := IntValOfString(s);
    if IntToString(n) == s then Some(n) else None
  }

  lemma CanonicalIntOfIntToString(n: int)
    requires InRange(n)
    ensures CanonicalInt(IntToString(n)) == Some(n)
  {
    IntToStringRoundTrip(n);
  }

  /** PHP's `strtolower`: ASCII letters only. */
  function LowerChar(c: char): (r: char)
    ensures 'A' <= c <= 'Z' ==> r != c
    ensures !('A' <= c <= 'Z') ==> r == c
  {
    if 'A' <= c <= 'Z' then (c as int - 'A' as int + 'a' as int) as char else c
  }

  function ToLower(s: string): (r: string)
    ensures |r| == |s|
    ensures forall i :: 0 <= i < |s| ==> r[i] == LowerChar(s[i])
  {
    if s == [] then [] else [LowerChar(s[0])] + ToLower(s[1..])
  }

  lemma ToLowerIdempotent(s: string)
    ensures ToLower(ToLower(s)) == ToLower(s)
  {
  }
}
