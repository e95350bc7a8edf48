/** getInt and IntToString (srcs/format.cpp): numbers read from and written to text. */
module Numbers {
  import opened Text

  const LONG_MAX: int := 0x7fff_ffff_ffff_ffff
  const LONG_MIN: int := -0x8000_0000_0000_0000

  /** What getInt makes of a text: no number, a number strtol cannot hold (it then
      stores the narrowed bound), or a number narrowed to 32 bits. */
  datatype Parsed = Invalid | OutOfRange(stored: int) | Number(value: int)

  predicate IsInt32(x: int) { -0x8000_0000 <= x < 0x8000_0000 }

  predicate IsBase(base: int) { base == 10 || base == 16 }

  predicate IsBlank(c: char) { c == ' ' || c == '\t' }

  /** The narrowing assignment of a long to an int. */
  function Narrow(v: int): (r: int)
    ensures IsInt32(r) && (IsInt32(v) ==> r == v)
  {
    (v + 0x8000_0000) % 0x1_0000_0000 - 0x8000_0000
  }

  function DigitValue(c: char): int {
    if '0' <= c <= '9' then c as int - '0' as int
    else if 'A' <= c <= 'F' then c as int - 'A' as int + 10
    else if 'a' <= c <= 'f' then c as int - 'a' as int + 10
    else -1
  }

  predicate IsDigit(c: char, base: int) { 0 <= DigitValue(c) < base }

  predicate AllDigits(s: string, base: int) {
    forall i :: 0 <= i < |s| ==> IsDigit(s[i], base)
  }

  function Value(s: string, base: int): (v: int)
    requires IsBase(base) && AllDigits(s, base)
    ensures v >= 0
  {
    if s == "" then 0 else Value(s[..|s| - 1], base) * base + DigitValue(s[|s| - 1])
  }

  /** The index of the first character at or after `i` that is not a space or tab. */
  function SkipBlanks(s: string, i: nat): (r: nat)
    requires i <= |s|
    ensures i <= r <= |s| && (r < |s| ==> !IsBlank(s[r])) && forall k :: i <= k < r ==> IsBlank(s[k])
    decreases |s| - i
  {
    if i < |s| && IsBlank(s[i]) then SkipBlanks(s, i + 1) else i
  }

  function ParseFrom(s: string, i: nat, base: int): Parsed
    requires i <= |s| && IsBase(base)
  {
    var signed := i < |s| && (s[i] == '+' || s[i] == '-');
    var digits := if signed then s[i + 1..] else s[i..];
    if digits == "" || !AllDigits(digits, base) then Invalid
    else
      var n: int := Value(digits, base);
      var v := if signed && s[i] == '-' then -n else n;
      if v > LONG_MAX then OutOfRange(Narrow(LONG_MAX))
      else if v < LONG_MIN then OutOfRange(Narrow(LONG_MIN))
      else Number(Narrow(v))
  }

  function ParseInt(s: string, base: int): Parsed
    requires IsBase(base)
  {
    ParseFrom(s, SkipBlanks(s, 0), base)
  }

  /** getInt: the code is 0 exactly when the text is a number; `res` keeps its old
      value when the text is not one, and holds the narrowed bound on overflow. */
  method GetInt(str: string, base: int, res0: int) returns (code: int, res: int)
    requires IsBase(base)
    ensures code == 0 <==> ParseInt(str, base).Number?
    ensures code == 0 || code == 1
    ensures match ParseInt(str, base)
            case Invalid => res == res0
            case OutOfRange(n) => res == n
            case Number(n) => res == n
  {
    res := res0;
    var idx := 0;
    while idx < |str| && IsBlank(str[idx])
      invariant 0 <= idx <= |str|
      invariant SkipBlanks(str, idx) == SkipBlanks(str, 0)
    {
      idx := idx + 1;
    }
    var start := idx;
    if idx < |str| && (str[idx] == '+' || str[idx] == '-') {
      idx := idx + 1;
    }
    if idx == |str| { return 1, res; }
    if !AllDigits(str[idx..], base) { return 1, res; }
    // strtol with errno
    var n: int := Value(str[idx..], base);
    var v := if start < idx && str[start] == '-' then -n else n;
    if v > LONG_MAX { return 1, Narrow(LONG_MAX); }
    if v < LONG_MIN { return 1, Narrow(LONG_MIN); }
    return 0, Narrow(v);
  }

  const HEX_DIGITS: string := "0123456789abcdef"

  function DigitChar(d: nat): (c: char)
    requires d < 16
    ensures DigitValue(c) == d && c in HEX_DIGITS
  {
    HEX_DIGITS[d]
  }

  function Digits(n: nat, base: int): (r: string)
    requires IsBase(base)
    ensures |r| > 0 && AllDigits(r, base)
    decreases n
  {
    if n < base then [DigitChar(n)] else Digits(n / base, base) + [DigitChar(n % base)]
  }

  /** IntToString: std::hex prints a negative int as its unsigned 32-bit pattern. */
  function IntToString(x: int, base: int): string
    requires IsBase(base) && IsInt32(x)
  {
    if base == 16 then Digits(if x < 0 then x + 0x1_0000_0000 else x, 16)
    else if x < 0 then "-" + Digits(-x, 10)
    else Digits(x, 10)
  }

  lemma ValueSnoc(s: string, c: char, base: int)
    requires IsBase(base) && AllDigits(s, base) && IsDigit(c, base)
    ensures AllDigits(s + [c], base)
    ensures Value(s + [c], base) == Value(s, base) * base + DigitValue(c)
  {
    assert (s + [c])[..|s|] == s;
  }

  lemma {:induction false} DigitsValue(n: nat, base: int)
    requires IsBase(base)
    ensures Value(Digits(n, base), base) == n
  {
    if n < base {
      ValueSnoc("", DigitChar(n), base);
      assert "" + [DigitChar(n)] == [DigitChar(n)];
    } else {
      var q := n / base;
      DigitsValue(q, base);
      ValueSnoc(Digits(q, base), DigitChar(n % base), base);
    }
  }

  /** Plain digits are read in full: no blank and no sign can hide in front. */
  lemma ParseDigits(s: string, base: int)
    requires IsBase(base) && s != "" && AllDigits(s, base)
    ensures ParseInt(s, base) ==
      if Value(s, base) > LONG_MAX then OutOfRange(Narrow(LONG_MAX)) else Number(Narrow(Value(s, base)))
  {
    assert IsDigit(s[0], base) && s[0..] == s;
    assert SkipBlanks(s, 0) == 0;
  }

  lemma ParseNegative(s: string)
    requires s != "" && AllDigits(s, 10)
    ensures ParseInt("-" + s, 10) ==
      if -Value(s, 10) < LONG_MIN then OutOfRange(Narrow(LONG_MIN)) else Number(Narrow(-Value(s, 10)))
  {
    var t := "-" + s;
    assert t[1..] == s && t[0] == '-';
    assert SkipBlanks(t, 0) == 0;
  }

  /** Every 32-bit integer is read back from its printed form, in both bases;
      in base 16 a negative number goes through its unsigned pattern. */
  lemma RoundTrip(x: int, base: int)
    requires IsInt32(x) && IsBase(base)
    ensures ParseInt(IntToString(x, base), base) == Number(x)
  {
    if base == 16 {
      RoundTripDigits(if x < 0 then x + 0x1_0000_0000 else x, 16, x);
    } else if x >= 0 {
      RoundTripDigits(x, 10, x);
    } else {
      RoundTripNegative(-x);
    }
  }

  lemma RoundTripNegative(n: int)
    requires 0 <= n <= 0x8000_0000
    ensures ParseInt("-" + Digits(n, 10), 10) == Number(-n)
  {
    var d := Digits(n, 10);
    DigitsValue(n, 10);
    ParseNegative(d);
  }

  lemma RoundTripDigits(n: nat, base: int, x: int)
    requires IsBase(base) && n <= LONG_MAX && Narrow(n) == x
    ensures ParseInt(Digits(n, base), base) == Number(x)
  {
    DigitsValue(n, base);
    ParseDigits(Digits(n, base), base);
  }

  /** The narrowing makes getInt forget multiples of 2^32: a printed natural number
      is read back as itself exactly when it fits 31 bits. */
  lemma ExactWhenInt32(n: nat)
    ensures ParseInt(Digits(n, 10), 10) == Number(n) <==> n < 0x8000_0000
  {
    DigitsValue(n, 10);
    ParseDigits(Digits(n, 10), 10);
  }
}
