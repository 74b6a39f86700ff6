/**
 * 64-bit signed integers as the service sees them: formatted with `format!("{}", n)` and parsed with
 * Rust's `str::parse::<i64>`.
 */
module Decimal {
  import opened Wrappers

  const MinI64: int := -0x8000_0000_0000_0000
  const MaxI64: int := 0x7FFF_FFFF_FFFF_FFFF

  /** Rust's `i64`. */
  type I64 = x: int | MinI64 <= x <= MaxI64

  predicate IsDigit(c: char)
  {
    '0' <= c <= '9'
  }

  predicate AllDigits(s: string)
  {
    forall i :: 0 <= i < |s| ==> IsDigit(s[i])
  }

  function DigitChar(d: nat): (c: char)
    requires d < 10
    ensures IsDigit(c)
  {
    ('0' as int + d) as char
  }

  function DigitValue(c: char): (d: nat)
    requires IsDigit(c)
    ensures d < 10
  {
    c as int - '0' as int
  }

  /** Decimal digits of `n`, most significant first, without leading zeros. */
  function NatToString(n: nat): (s: string)
    ensures |s| >= 1 && AllDigits(s)
    ensures s[0] == '0' ==> n == 0
    decreases n
  {
    if n < 10 then [DigitChar(n)] else NatToString(n / 10) + [DigitChar(n % 10)]
  }

  /** `format!("{}", n)`: a leading `-` for negative numbers, then the digits. */
  function IntToString(n: int): (s: string)
    ensures |s| >= 1
    ensures n >= 0 <==> s[0] != '-'
    ensures forall i :: 0 <= i < |s| ==> IsDigit(s[i]) || (i == 0 && s[i] == '-')
  {
    if n < 0 then "-" + NatToString(-n) else NatToString(n)
  }

  /** Value of a string of decimal digits (empty reads as 0). */
  function DigitsValue(s: string): nat
    requires AllDigits(s)
    decreases |s|
  {
    if |s| == 0 then 0 else DigitsValue(s[..|s| - 1]) * 10 + DigitValue(s[|s| - 1])
  }

  function InRange(v: int): Option<I64>
  {
    if MinI64 <= v <= MaxI64 then Some(v) else None
  }

  /** The text shape `parse::<i64>` accepts: an optional `+` or `-`, then one or more ASCII digits. */
  predicate SignedDigits(s: string)
  {
    |s| >= 1 && (IsDigit(s[0]) || ((s[0] == '+' || s[0] == '-') && |s| >= 2))
    && forall i :: 1 <= i < |s| ==> IsDigit(s[i])
  }

  /** The digits of a signed-digit text, without its sign. */
  function Magnitude(s: string): (d: string)
    requires SignedDigits(s)
    ensures |d| >= 1 && AllDigits(d)
  {
    if IsDigit(s[0]) then s else s[1..]
  }

  /** The integer a signed-digit text denotes, of any size. */
  function Denoted(s: string): int
    requires SignedDigits(s)
  {
    if s[0] == '-' then -(DigitsValue(Magnitude(s)) as int) else DigitsValue(Magnitude(s))
  }

  /**
   * `s.parse::<i64>()`: an optional `+` or `-`, then at least one ASCII digit and nothing else, and a
   * value that fits in 64 bits. Anything else is an error (`None`).
   */
  function ParseI64(s: string): (r: Option<I64>)
    ensures r.Some? <==> SignedDigits(s) && MinI64 <= Denoted(s) <= MaxI64
    ensures r.Some? ==> r.value == Denoted(s)
  {
    if |s| == 0 then None
    else if s[0] == '+' || s[0] == '-' then
      var digits := s[1..];
      assert AllDigits(digits) <==> forall i :: 1 <= i < |s| ==> IsDigit(s[i]) by {
        assert forall i :: 1 <= i < |s| ==> s[i] == digits[i - 1];
      }
      if |digits| == 0 || !AllDigits(digits) then None
      else if s[0] == '-' then InRange(-(DigitsValue(digits) as int))
      else InRange(DigitsValue(digits))
    else if AllDigits(s) then InRange(DigitsValue(s))
    else None
  }

  /**
   * The texts `format!("{}", n)` produces: no `+`, no leading zero, and no `-0`.
   */
  predicate Canonical(s: string)
  {
    SignedDigits(s) && s[0] != '+' && s != "-0" && (Magnitude(s)[0] != '0' || |Magnitude(s)| == 1)
  }

  lemma {:induction false} DigitsValueOfNatToString(n: nat)
    ensures DigitsValue(NatToString(n)) == n
    decreases n
  {
    var s := NatToString(n);
    if n >= 10 {
      var prefix := NatToString(n / 10);
      assert s == prefix + [DigitChar(n % 10)];
      assert s[..|s| - 1] == prefix;
      DigitsValueOfNatToString(n / 10);
    }
  }

  /** Formatting then parsing gives back the same 64-bit integer. */
  lemma ParseFormatRoundTrip(n: I64)
    ensures ParseI64(IntToString(n)) == Some(n)
  {
    if n < 0 {
      NegativeRoundTrip(n);
    } else {
      NonNegativeRoundTrip(n);
    }
  }

  lemma NegativeRoundTrip(n: I64)
    requires n < 0
    ensures ParseI64(IntToString(n)) == Some(n)
  {
    var m: nat := -(n as int);
    var d := NatToString(m);
    var s := "-" + d;
    assert s == IntToString(n);
    assert s[0] == '-' && s[1..] == d;
    assert AllDigits(d) && |d| >= 1;
    assert ParseI64(s) == InRange(-(DigitsValue(d) as int));
    DigitsValueOfNatToString(m);
  }

  lemma NonNegativeRoundTrip(n: I64)
    requires n >= 0
    ensures ParseI64(IntToString(n)) == Some(n)
  {
    var s := NatToString(n);
    assert s == IntToString(n);
    assert IsDigit(s[0]);
    assert ParseI64(s) == InRange(DigitsValue(s));
    DigitsValueOfNatToString(n);
  }
  /** A digit string whose first digit is not 0 denotes a positive number. */
  lemma {:induction false} DigitsPositive(d: string)
    requires AllDigits(d) && |d| >= 1 && d[0] != '0'
    ensures DigitsValue(d) >= 1
    decreases |d|
  {
    if |d| > 1 {
      DigitsPositive(d[..|d| - 1]);
    }
  }

  /** Digits without a leading zero are what `NatToString` prints for their value. */
  lemma {:induction false} NatToStringOfDigits(d: string)
    requires AllDigits(d) && |d| >= 1 && (|d| == 1 || d[0] != '0')
    ensures NatToString(DigitsValue(d)) == d
    decreases |d|
  {
    var v := DigitsValue(d);
    var x := DigitValue(d[|d| - 1]);
    if |d| == 1 {
      assert d[..0] == [] && DigitsValue(d[..0]) == 0;
      assert v == DigitsValue(d[..0]) * 10 + x;
      assert DigitChar(x) == d[0];
    } else {
      var p := d[..|d| - 1];
      NatToStringOfDigits(p);
      DigitsPositive(p);
      assert v == DigitsValue(p) * 10 + x;
      assert v / 10 == DigitsValue(p) && v % 10 == x;
      assert DigitChar(x) == d[|d| - 1];
      assert p + [d[|d| - 1]] == d;
    }
  }

  /** Parsing a canonical text and formatting the result gives back the same text. */
  lemma FormatParseRoundTrip(s: string)
    requires Canonical(s) && ParseI64(s).Some?
    ensures IntToString(ParseI64(s).value) == s
  {
    var d := Magnitude(s);
    NatToStringOfDigits(d);
    if s[0] == '-' {
      assert s == "-" + d;
      DigitsPositive(d);
    }
  }
}
