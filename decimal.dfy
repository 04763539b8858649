/** Decimal text of 64-bit integers: what `IntPtr.ToString()` produces for a
    monitor handle and what `long.Parse` accepts when the handle is read back. */
module Decimal {
  import opened Wrappers

  const Int64Min: int := -0x8000_0000_0000_0000
  const Int64Max: int := 0x7FFF_FFFF_FFFF_FFFF

  /** A signed 64-bit value (`long`, or an `IntPtr` in a 64-bit process). */
  type Int64 = x: int | Int64Min <= x <= Int64Max

  predicate IsDigit(c: char) { '0' <= c <= '9' }

  predicate AllDigits(s: seq<char>) { forall i :: 0 <= i < |s| ==> IsDigit(s[i]) }

  /** The white space that `NumberStyles.Integer` lets stand before and after the number. */
  predicate IsWhite(c: char) { c == ' ' || '\t' <= c <= '\r' }

  function DigitChar(d: nat): (c: char)
    requires d < 10
    ensures IsDigit(c)
  {
    ('0' as int + d) as char
  }

  function DigitValue(c: char): (d: nat)
    requires IsDigit(c)
    ensures d < 10
  {
    c as int - '0' as int
  }

  /** The shortest decimal digit string of `n`. */
  function NatDigits(n: nat): (s: seq<char>)
    ensures |s| > 0 && AllDigits(s)
    ensures |s| > 1 ==> s[0] != '0'
    decreases n
  {
    if n < 10 then [DigitChar(n)] else NatDigits(n / 10) + [DigitChar(n % 10)]
  }

  /** The value of a digit string, most significant digit first. */
  function DigitsValue(s: seq<char>): nat
    requires AllDigits(s)
  {
    if s == [] then 0 else DigitsValue(s[..|s| - 1]) * 10 + DigitValue(s[|s| - 1])
  }

  lemma {:induction false} DigitsValueOfNatDigits(n: nat)
    ensures DigitsValue(NatDigits(n)) == n
    decreases n
  {
    if n >= 10 {
      var s := NatDigits(n);
      assert s[..|s| - 1] == NatDigits(n / 10);
      DigitsValueOfNatDigits(n / 10);
    }
  }

  /** `Int64.ToString()` / `IntPtr.ToString()`: a minus sign for negative values, then the digits. */
  function FormatInt(x: int): (s: string)
    ensures |s| > 0 && !IsWhite(s[0]) && IsDigit(s[|s| - 1])
    ensures x >= 0 ==> AllDigits(s)
    ensures x < 0 ==> s[0] == '-' && AllDigits(s[1..])
  {
    if x < 0 then "-" + NatDigits(-x) else NatDigits(x)
  }

  /** `TrimStart()`: drops the leading white space. */
  function TrimStartWhite(s: string): (r: string)
    ensures |r| <= |s|
    ensures r == [] || !IsWhite(r[0])
  {
    if s != [] && IsWhite(s[0]) then TrimStartWhite(s[1..]) else s
  }

  /** `TrimEnd()`: drops the trailing white space. */
  function TrimEndWhite(s: string): (r: string)
    ensures |r| <= |s|
    ensures r == [] || !IsWhite(r[|r| - 1])
  {
    if s != [] && IsWhite(s[|s| - 1]) then TrimEndWhite(s[..|s| - 1]) else s
  }

  /** Why `long.Parse` refused its text: `FormatException` or `OverflowException`. */
  datatype ParseError = FormatError | OverflowError

  /** `long.Parse(s)` with the default `NumberStyles.Integer`: optional white space,
      an optional sign, at least one digit, optional white space; a well-formed
      number outside the 64-bit range overflows. */
  function ParseInt64(s: string): Result<Int64, ParseError>
  {
    ParseTrimmed(TrimEndWhite(TrimStartWhite(s)))
  }

  /** The sign-and-digits part of `ParseInt64`, on text already stripped of white space. */
  function ParseTrimmed(t: string): Result<Int64, ParseError>
  {
    if t == [] then Failure(FormatError)
    else if t[0] == '-' then ParseMagnitude(t[1..], true)
    else if t[0] == '+' then ParseMagnitude(t[1..], false)
    else ParseMagnitude(t, false)
  }

  function ParseMagnitude(digits: string, negative: bool): Result<Int64, ParseError>
  {
    if digits == [] || !AllDigits(digits) then Failure(FormatError)
    else
      var v: int := if negative then -(DigitsValue(digits) as int) else DigitsValue(digits);
      if Int64Min <= v <= Int64Max then Success(v) else Failure(OverflowError)
  }

  /** Trimming only removes white space from the ends: what is left is a
      slice of the text, and everything removed is white space. */
  lemma {:induction false} TrimStartIsSuffix(s: string)
    ensures var r := TrimStartWhite(s);
            r == s[|s| - |r|..] && forall k :: 0 <= k < |s| - |r| ==> IsWhite(s[k])
    decreases |s|
  {
    if s != [] && IsWhite(s[0]) {
      TrimStartIsSuffix(s[1..]);
    }
  }

  lemma {:induction false} TrimEndIsPrefix(s: string)
    ensures var r := TrimEndWhite(s);
            r == s[..|r|] && forall k :: |r| <= k < |s| ==> IsWhite(s[k])
    decreases |s|
  {
    if s != [] && IsWhite(s[|s| - 1]) {
      TrimEndIsPrefix(s[..|s| - 1]);
    }
  }

  lemma TrimmedUnchanged(s: string)
    requires |s| > 0 && !IsWhite(s[0]) && !IsWhite(s[|s| - 1])
    ensures TrimEndWhite(TrimStartWhite(s)) == s
  {
  }

  lemma ParseDigits(n: nat, negative: bool)
    ensures var v: int := if negative then -(n as int) else n;
            Int64Min <= v <= Int64Max ==> ParseMagnitude(NatDigits(n), negative) == Success(v)
  {
    DigitsValueOfNatDigits(n);
  }

  /** A handle written with `ToString()` is read back unchanged by `long.Parse`. */
  lemma ParseFormatRoundTrip(x: Int64)
    ensures ParseInt64(FormatInt(x)) == Success(x)
  {
    var s := FormatInt(x);
    TrimmedUnchanged(s);
    assert ParseInt64(s) == ParseTrimmed(s);
    if x < 0 {
      var n: nat := -(x as int);
      assert s == "-" + NatDigits(n);
      assert s[1..] == NatDigits(n);
      ParseDigits(n, true);
      assert ParseTrimmed(s) == ParseMagnitude(NatDigits(n), true);
    } else {
      var n: nat := x as int;
      assert s == NatDigits(n);
      ParseDigits(n, false);
      assert s[0] != '-' && s[0] != '+';
    }
  }
}
