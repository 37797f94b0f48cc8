/**
 * Python's `int(s)` and `str(n)` for integers written with ASCII digits and an
 * optional sign, as the scanner uses them to retry a lookup without leading
 * zeros: `str(int(charge))`.
 */
module PyInt {
  import opened Base
  import opened Text

  predicate IsDigit(c: char) {
    '0' <= c <= '9'
  }

  predicate AllDigits(s: string) {
    forall i :: 0 <= i < |s| ==> IsDigit(s[i])
  }

  function DigitValue(c: char): (d: nat)
    requires IsDigit(c)
    ensures d < 10
  {
    c as int - '0' as int
  }

  function DigitChar(d: nat): (c: char)
    requires d < 10
    ensures IsDigit(c) && DigitValue(c) == d
  {
    ('0' as int + d) as char
  }

  /** The value of a decimal numeral, most significant digit first. */
  function DigitsValue(s: string): nat
    requires AllDigits(s)
  {
    if s == [] then 0 else DigitsValue(s[..|s| - 1]) * 10 + DigitValue(s[|s| - 1])
  }

  /**
   * The decimal numeral of `n` without leading zeros, as `str(n)` writes it;
   * reading it back yields `n`.
   */
  function NatToDigits(n: nat): (r: string)
    ensures r != [] && AllDigits(r)
    ensures DigitsValue(r) == n
    ensures r[0] == '0' ==> r == "0"
  {
    if n < 10 then [DigitChar(n)]
    else
      var p := NatToDigits(n / 10);
      var r := p + [DigitChar(n % 10)];
      assert r[..|r| - 1] == p;
      r
  }

  /** `str(n)` for an int. */
  function IntToString(n: int): (r: string)
    ensures r != [] && (n < 0 <==> r[0] == '-')
  {
    if n < 0 then "-" + NatToDigits(-n) else NatToDigits(n)
  }

  predicate IsSign(c: char) {
    c == '+' || c == '-'
  }

  /** A stripped text that `int()` accepts: an optional sign followed by at least one digit. */
  predicate IsIntLiteral(t: string) {
    if t != [] && IsSign(t[0]) then |t| > 1 && AllDigits(t[1..]) else t != [] && AllDigits(t)
  }

  /**
   * The information separators U+001C to U+001F: `str.strip()` removes them,
   * but `int()` skips only the other whitespace and fails on them.
   */
  predicate IsSeparator(c: char) {
    '\U{1C}' <= c <= '\U{1F}'
  }

  predicate HasSeparator(s: string) {
    exists i :: 0 <= i < |s| && IsSeparator(s[i])
  }

  /**
   * `int(s)`: surrounding whitespace other than the separators is ignored;
   * anything else than a signed numeral fails.
   */
  function ParseInt(s: string): (r: Option<int>)
    ensures r.Some? ==> !HasSeparator(s) && IsIntLiteral(Strip(s))
  {
    var t := Strip(s);
    if HasSeparator(s) then None
    else if t != [] && IsSign(t[0]) then
      if |t| > 1 && AllDigits(t[1..]) then
        var v: int := DigitsValue(t[1..]);
        Some(if t[0] == '-' then -v else v)
      else None
    else if t != [] && AllDigits(t) then Some(DigitsValue(t))
    else None
  }

  /** `int()` accepts exactly a separator-free text that strips to an optionally signed numeral. */
  lemma ParseIntAccepts(s: string)
    ensures ParseInt(s).Some? <==> !HasSeparator(s) && IsIntLiteral(Strip(s))
    ensures ParseInt(s).Some? && !IsSign(Strip(s)[0]) ==> ParseInt(s).value == DigitsValue(Strip(s))
    ensures ParseInt(s).Some? && Strip(s)[0] == '-' ==> ParseInt(s).value == -(DigitsValue(Strip(s)[1..]) as int)
  {
  }

  /** A separator next to a numeral: `strip()` removes it, but `int()` fails. */
  lemma ParseIntSeparator()
    ensures Strip("5\U{1F}") == "5"
    ensures ParseInt("5\U{1F}") == None
  {
    var s := "5\U{1F}";
    assert IsSeparator(s[1]);
    assert IsSpace(s[1]) && !IsSpace(s[0]);
    assert TrimLeft(s) == s;
    assert s[..1] == "5";
    assert TrimRight(s) == TrimRight("5") == "5";
  }

  /** `str(int(s))`, or None where `int(s)` raises ValueError. */
  function NormalizeCharge(s: string): (r: Option<string>)
    ensures r.Some? <==> ParseInt(s).Some?
    ensures r.Some? ==> r.value != "" && ParseInt(r.value) == ParseInt(s)
  {
    match ParseInt(s)
    case None => None
    case Some(n) => IntRoundTrip(n); Some(IntToString(n))
  }

  /** Writing an integer and reading it back gives the same integer. */
  lemma IntRoundTrip(n: int)
    ensures ParseInt(IntToString(n)) == Some(n)
  {
    var s := IntToString(n);
    var digits := NatToDigits(if n < 0 then -n else n);
    assert !IsSpace(digits[0]) && !IsSpace(digits[|digits| - 1]);
    StripUnchanged(s);
    assert !HasSeparator(s) by {
      if n < 0 { assert s == "-" + digits; }
    }
    if n < 0 {
      assert s == "-" + digits && s[1..] == digits;
      assert IsSign(s[0]) && |s| > 1;
    } else {
      assert s == digits && !IsSign(s[0]);
    }
  }

  /** The normalised code is a fixed point: normalising it again changes nothing. */
  lemma NormalizeIdempotent(s: string)
    requires NormalizeCharge(s).Some?
    ensures NormalizeCharge(NormalizeCharge(s).value) == NormalizeCharge(s)
  {
    IntRoundTrip(ParseInt(s).value);
  }

  function StripLeadingZeros(s: string): (r: string)
    ensures |r| <= |s| && r == s[|s| - |r|..]
    ensures r == [] || r[0] != '0'
    ensures forall i :: 0 <= i < |s| - |r| ==> s[i] == '0'
  {
    if s != [] && s[0] == '0' then StripLeadingZeros(s[1..]) else s
  }

  /**
   * On a numeral of plain digits, `str(int(s))` removes the leading zeros,
   * and gives "0" when nothing else is left.
   */
  lemma NormalizeDigits(s: string)
    requires s != [] && AllDigits(s)
    ensures var z := StripLeadingZeros(s);
            NormalizeCharge(s) == Some(if z == [] then "0" else z)
  {
    ParseDigits(s);
    var z := StripLeadingZeros(s);
    ZerosValue(s);
    if z != [] {
      CanonicalDigits(z);
    }
  }

  /** `int()` of plain digits is their value. */
  lemma ParseDigits(s: string)
    requires s != [] && AllDigits(s)
    ensures ParseInt(s) == Some(DigitsValue(s))
  {
    assert !IsSpace(s[0]) && !IsSpace(s[|s| - 1]);
    StripUnchanged(s);
    assert !HasSeparator(s);
    assert !IsSign(s[0]);
  }

  /** Leading zeros do not change the value of a numeral. */
  lemma {:induction false} ZerosValue(s: string)
    requires AllDigits(s)
    ensures DigitsValue(StripLeadingZeros(s)) == DigitsValue(s)
  {
    if s != [] && s[0] == '0' {
      ZerosValue(s[1..]);
      LeadingZeroValue(s[1..]);
      assert s == ['0'] + s[1..];
    }
  }

  lemma {:induction false} LeadingZeroValue(s: string)
    requires AllDigits(s)
    ensures DigitsValue(['0'] + s) == DigitsValue(s)
  {
    if s != [] {
      var p := s[..|s| - 1];
      LeadingZeroValue(p);
      assert (['0'] + s)[..|s|] == ['0'] + p;
    }
  }

  /** A numeral without leading zeros is exactly what `str` writes for its value. */
  lemma {:induction false} CanonicalDigits(z: string)
    requires z != [] && AllDigits(z) && z[0] != '0'
    ensures NatToDigits(DigitsValue(z)) == z
  {
    if |z| == 1 {
      assert DigitChar(DigitValue(z[0])) == z[0];
    } else {
      var p := z[..|z| - 1];
      PositiveValue(p);
      CanonicalDigits(p);
      var v := DigitsValue(z);
      assert v / 10 == DigitsValue(p) && v % 10 == DigitValue(z[|z| - 1]);
      assert DigitChar(DigitValue(z[|z| - 1])) == z[|z| - 1];
      assert z == p + [z[|z| - 1]];
    }
  }

  lemma {:induction false} PositiveValue(z: string)
    requires z != [] && AllDigits(z) && z[0] != '0'
    ensures DigitsValue(z) >= 1
  {
    if |z| > 1 {
      PositiveValue(z[..|z| - 1]);
    }
  }

  /**
   * On a signed numeral, `str(int(s))` drops a plus sign and the leading
   * zeros, keeps a minus sign, and gives "0" for any signed zero.
   */
  lemma NormalizeSigned(sign: char, d: string)
    requires IsSign(sign) && d != [] && AllDigits(d)
    ensures var z := StripLeadingZeros(d);
            NormalizeCharge([sign] + d) == Some(if z == [] then "0" else if sign == '-' then "-" + z else z)
  {
    ParseSigned(sign, d);
    var z := StripLeadingZeros(d);
    ZerosValue(d);
    if z != [] {
      CanonicalDigits(z);
      PositiveValue(z);
    }
  }

  /** `int()` of a sign followed by digits is the signed value of the digits. */
  lemma ParseSigned(sign: char, d: string)
    requires IsSign(sign) && d != [] && AllDigits(d)
    ensures ParseInt([sign] + d) == Some(if sign == '-' then -(DigitsValue(d) as int) else DigitsValue(d))
  {
    var s := [sign] + d;
    assert s[|s| - 1] == d[|d| - 1];
    StripUnchanged(s);
    assert !HasSeparator(s) by {
      forall i | 0 <= i < |s| ensures !IsSeparator(s[i]) {
        if i > 0 { assert s[i] == d[i - 1]; }
      }
    }
    assert s[1..] == d;
  }

  /** "-007" normalises to "-7". */
  lemma NormalizeMinus()
    ensures NormalizeCharge("-007") == Some("-7")
  {
    assert "-007" == ['-'] + "007";
    ParseSigned('-', "007");
    SevenValue();
    assert ParseInt("-007") == Some(-7);
    assert NatToDigits(7) == "7";
    assert IntToString(-7) == "-" + NatToDigits(7) == "-7";
  }

  /** "+007" normalises to "7". */
  lemma NormalizePlus()
    ensures NormalizeCharge("+007") == Some("7")
  {
    assert "+007" == ['+'] + "007";
    ParseSigned('+', "007");
    SevenValue();
    assert NatToDigits(7) == "7";
  }

  lemma SevenValue()
    ensures AllDigits("007") && DigitsValue("007") == 7
  {
    assert "007"[..2] == "00" && "00"[..1] == "0" && "0"[..0] == [];
  }

  /** The leading-zero example: "007" normalises to "7". */
  lemma NormalizeLeadingZeros()
    ensures NormalizeCharge("007") == Some("7")
  {
    StripUnchanged("007");
    assert "007"[..2] == "00" && "00"[..1] == "0" && "0"[..0] == [];
    assert DigitsValue("007") == 7;
    assert ParseInt("007") == Some(7);
    assert NatToDigits(7) == "7";
  }

  /** A code of zeros only normalises to "0". */
  lemma NormalizeAllZeros()
    ensures NormalizeCharge("000") == Some("0")
  {
    StripUnchanged("000");
    assert "000"[..2] == "00" && "00"[..1] == "0" && "0"[..0] == [];
    assert DigitsValue("000") == 0;
    assert ParseInt("000") == Some(0);
    assert NatToDigits(0) == "0";
  }

  /** A code with letters makes `int()` fail, so no normalised code exists. */
  lemma NormalizeNonNumeric()
    ensures NormalizeCharge("A100") == None
  {
    StripUnchanged("A100");
    assert !IsSign('A') && !IsDigit('A');
  }
}
