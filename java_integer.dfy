/**
 * The two pieces of java.lang.Integer that a version marker relies on:
 * `Integer.parseInt(s)` (base 10) and `Integer.toString(n)`.
 *
 * parseInt is modelled by its ASCII grammar: an optional leading '+' or '-',
 * then at least one digit '0'..'9' (leading zeros allowed), and a value that
 * fits a 32-bit signed int. Anything else is a NumberFormatException, here `None`.
 */
module JavaInteger {
  import opened Wrappers

  const INT_MIN: int := -0x8000_0000
  const INT_MAX: int := 0x7fff_ffff

  /** Java's `int`. */
  type Int32 = x: int | INT_MIN <= x <= INT_MAX

  predicate IsDigit(c: char) {
    '0' <= c <= '9'
  }

  predicate AllDigits(s: string) {
    forall i :: 0 <= i < |s| ==> IsDigit(s[i])
  }

  function DigitValue(c: char): (d: nat)
    requires IsDigit(c)
    ensures d < 10
  {
    c as int - '0' as int
  }

  function DigitChar(d: nat): (c: char)
    requires d < 10
    ensures IsDigit(c) && DigitValue(c) == d
  {
    (d + '0' as int) as char
  }

  /** The number a string of decimal digits denotes, most significant digit first. */
  function DigitsValue(s: string): nat
    requires AllDigits(s)
  {
    if s == [] then 0 else DigitsValue(s[..|s| - 1]) * 10 + DigitValue(s[|s| - 1])
  }

  /** The text after an optional leading sign. */
  function Magnitude(s: string): string
    requires |s| > 0
  {
    if s[0] == '-' || s[0] == '+' then s[1..] else s
  }

  /** The shape parseInt accepts before it checks the range: a sign at most, then digits. */
  predicate Grammatical(s: string) {
    |s| > 0 && |Magnitude(s)| > 0 && AllDigits(Magnitude(s))
  }

  /** The mathematical value a grammatical string spells, whatever its size. */
  function SignedValue(s: string): int
    requires Grammatical(s)
  {
    var magnitude: int := DigitsValue(Magnitude(s));
    if s[0] == '-' then -magnitude else magnitude
  }

  /** `Integer.parseInt(s)`; `None` stands for NumberFormatException. */
  function ParseInt(s: string): (r: Option<Int32>)
    ensures r.Some? <==> Grammatical(s) && INT_MIN <= SignedValue(s) <= INT_MAX
    ensures r.Some? ==> r.value == SignedValue(s)
    ensures r.Some? ==> |s| > 0 && AllDigits(s[1..])
    ensures r.Some? ==> IsDigit(s[0]) || s[0] == '+' || s[0] == '-'
    ensures r.Some? && r.value < 0 ==> s[0] == '-'
    ensures |s| == 1 && !IsDigit(s[0]) ==> r.None?
  {
    if |s| == 0 then None
    else
      var digits := if s[0] == '-' || s[0] == '+' then s[1..] else s;
      if |digits| == 0 || !AllDigits(digits) then None
      else
        var magnitude: int := DigitsValue(digits);
        var v: int := if s[0] == '-' then -magnitude else magnitude;
        if INT_MIN <= v <= INT_MAX then Some(v) else None
  }

  /** The shortest decimal spelling of a natural number. */
  function NatDigits(n: nat): (s: string)
    ensures |s| > 0 && AllDigits(s)
    ensures s[0] == '0' <==> n == 0
  {
    if n < 10 then [DigitChar(n)] else NatDigits(n / 10) + [DigitChar(n % 10)]
  }

  /** `Integer.toString(n)`: a '-' for negative numbers, then the digits of |n|. */
  function ToDecimal(n: int): (s: string)
    ensures |s| > 0
    ensures s[0] == '-' <==> n < 0
    ensures n >= 0 ==> AllDigits(s)
    ensures n < 0 ==> |s| >= 2 && AllDigits(s[1..])
    ensures var digits := if n < 0 then s[1..] else s; digits[0] == '0' <==> n == 0
  {
    if n < 0 then
      var m := NatDigits(-n);
      assert ("-" + m)[1..] == m;
      "-" + m
    else
      NatDigits(n)
  }

  /** Reading back the digits of `n` gives `n`. */
  lemma {:induction false} NatDigitsValue(n: nat)
    ensures DigitsValue(NatDigits(n)) == n
  {
    var s := NatDigits(n);
    if n < 10 {
      assert s[..|s| - 1] == [];
    } else {
      assert s[..|s| - 1] == NatDigits(n / 10);
      NatDigitsValue(n / 10);
    }
  }

  /** parseInt undoes toString on every Java int. */
  lemma ParseToDecimal(n: Int32)
    ensures ParseInt(ToDecimal(n)) == Some(n)
  {
    var s := ToDecimal(n);
    var m: int := n;
    if m < 0 {
      assert s[1..] == NatDigits(-m);
      NatDigitsValue(-m);
    } else {
      NatDigitsValue(n);
    }
  }

  /** parseInt accepts a leading '+' and leading zeros, which toString never produces. */
  lemma ParseAcceptsPlusAndZeros(n: nat)
    requires n <= INT_MAX
    ensures ParseInt("+" + NatDigits(n)) == Some(n)
    ensures ParseInt("0" + NatDigits(n)) == Some(n)
  {
    var s := NatDigits(n);
    NatDigitsValue(n);
    assert ("+" + s)[1..] == s;
    var z := "0" + s;
    assert z[..|z| - 1] == "0" + s[..|s| - 1];
    LeadingZero(s);
  }

  /** A leading zero does not change the value of a digit string. */
  lemma {:induction false} LeadingZero(s: string)
    requires AllDigits(s)
    ensures AllDigits("0" + s) && DigitsValue("0" + s) == DigitsValue(s)
  {
    var z := "0" + s;
    if s != [] {
      assert z[..|z| - 1] == "0" + s[..|s| - 1];
      LeadingZero(s[..|s| - 1]);
    } else {
      assert z[..|z| - 1] == [];
    }
  }

  /** The 32-bit bound: one past INT_MAX is rejected, INT_MIN is accepted. */
  lemma ParseRange()
    ensures ParseInt(ToDecimal(INT_MAX + 1)) == None
    ensures ParseInt(ToDecimal(INT_MIN)) == Some(INT_MIN)
  {
    NatDigitsValue(INT_MAX + 1);
    ParseToDecimal(INT_MIN);
  }

  // Parsing a spelling that toString would not produce.

  /** Drops the leading zeros of a digit string. */
  function StripZeros(s: string): string {
    if s != [] && s[0] == '0' then StripZeros(s[1..]) else s
  }

  /** The spelling toString gives a number: no '+', no leading zeros, no "-0". */
  function Canonical(s: string): string
    requires Grammatical(s)
  {
    var z := StripZeros(Magnitude(s));
    var m := if z == [] then "0" else z;
    if s[0] == '-' && m != "0" then "-" + m else m
  }

  lemma {:induction false} StripZerosValue(s: string)
    requires AllDigits(s)
    ensures AllDigits(StripZeros(s)) && DigitsValue(StripZeros(s)) == DigitsValue(s)
    ensures StripZeros(s) != [] ==> StripZeros(s)[0] != '0'
  {
    if s != [] && s[0] == '0' {
      assert s == "0" + s[1..];
      LeadingZero(s[1..]);
      StripZerosValue(s[1..]);
    }
  }

  /** A digit string without a leading zero denotes a positive number. */
  lemma {:induction false} NoLeadingZeroPositive(s: string)
    requires AllDigits(s) && |s| > 0 && s[0] != '0'
    ensures DigitsValue(s) >= 1
  {
    if |s| > 1 {
      NoLeadingZeroPositive(s[..|s| - 1]);
    }
  }

  /** toString respells a digit string without leading zero exactly. */
  lemma {:induction false} NatDigitsOfValue(s: string)
    requires AllDigits(s) && |s| > 0 && s[0] != '0'
    ensures NatDigits(DigitsValue(s)) == s
  {
    var p := s[..|s| - 1];
    var d := DigitValue(s[|s| - 1]);
    if |s| == 1 {
      assert DigitChar(d) == s[0];
    } else {
      NoLeadingZeroPositive(p);
      NatDigitsOfValue(p);
      var v := DigitsValue(s);
      assert v / 10 == DigitsValue(p) && v % 10 == d;
      assert DigitChar(d) == s[|s| - 1];
      assert s == p + [s[|s| - 1]];
    }
  }

  /**
   * Whatever spelling parseInt accepts, toString of the result is its
   * canonical form: "+0012" reads as 12, "-05" as -5, "-0" as 0.
   */
  lemma ParseIntCanonical(s: string)
    requires ParseInt(s).Some?
    ensures ToDecimal(ParseInt(s).value) == Canonical(s)
  {
    var digits := Magnitude(s);
    var z := StripZeros(digits);
    StripZerosValue(digits);
    var mag := DigitsValue(digits);
    if z == [] {
      assert mag == 0;
    } else {
      NatDigitsOfValue(z);
    }
    assert NatDigits(mag) == (if z == [] then "0" else z);
  }

  lemma ParseExamples()
    ensures ParseInt("-05") == Some(-5)
    ensures ParseInt("+0012") == Some(12)
    ensures ParseInt("0008") == Some(8)
    ensures ParseInt("-0") == Some(0)
    ensures ParseInt("") == None && ParseInt("+") == None && ParseInt("-") == None
    ensures ParseInt("1.8") == None && ParseInt("8 ") == None
  {
    assert "-05"[1..] == "05" && "05"[..1] == "0" && "0"[..0] == [];
    assert "+0012"[1..] == "0012" && "0012"[..3] == "001" && "001"[..2] == "00" && "00"[..1] == "0";
    assert "0008"[..3] == "000" && "000"[..2] == "00";
    assert "-0"[1..] == "0";
    assert "1.8"[1] == '.';
    assert "8 "[1] == ' ';
  }
}
