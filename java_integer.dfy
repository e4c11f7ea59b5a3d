/**
 * Java's 32-bit `int`, `Integer.valueOf(String)` (which parses like
 * `Integer.parseInt(s, 10)`) and `String.valueOf(int)`.
 */
module JavaInteger {
  import opened Wrappers

  const MIN_VALUE: int := -0x8000_0000
  const MAX_VALUE: int := 0x7fff_ffff

  /** A Java `int`. */
  newtype int32 = x: int | -0x8000_0000 <= x < 0x8000_0000

  /** Two's complement wrap-around of a mathematical integer into `int`. */
  function Wrap(x: int): (r: int32)
    ensures (r as int - x) % 0x1_0000_0000 == 0
    ensures MIN_VALUE <= x <= MAX_VALUE ==> r as int == x
  {
    ((x - MIN_VALUE) % 0x1_0000_0000 + MIN_VALUE) as int32
  }

  predicate IsDigit(c: char)
  {
    '0' <= c <= '9'
  }

  predicate AllDigits(s: string)
  {
    forall i :: 0 <= i < |s| ==> IsDigit(s[i])
  }

  function DigitValue(c: char): (d: nat)
    requires IsDigit(c)
    ensures d < 10
  {
    (c as int) - ('0' as int)
  }

  function DigitChar(d: nat): (c: char)
    requires d < 10
    ensures IsDigit(c) && DigitValue(c) == d
  {
    (('0' as int) + d) as char
  }

  /** The value of a string of decimal digits, most significant first. */
  function DigitsValue(s: string): nat
    requires AllDigits(s)
  {
    if s == [] then 0 else DigitsValue(s[..|s| - 1]) * 10 + DigitValue(s[|s| - 1])
  }

  /**
   * `Integer.valueOf(s)`: an optional `+` or `-`, then at least one decimal
   * digit (leading zeros allowed), with a value in the range of `int`;
   * anything else is a `NumberFormatException`, here `None`.
   */
  function ParseInt(s: string): Option<int32>
  {
    if s == [] then None
    else
      var negative := s[0] == '-';
      var digits := if s[0] == '-' || s[0] == '+' then s[1..] else s;
      if digits == [] || !AllDigits(digits) then None
      else
        var v: int := if negative then -(DigitsValue(digits) as int) else DigitsValue(digits);
        if MIN_VALUE <= v <= MAX_VALUE then Some(v as int32) else None
  }

  /** Decimal digits of `n` without leading zeros. */
  function NatToString(n: nat): (s: string)
    ensures |s| >= 1 && AllDigits(s)
    ensures DigitsValue(s) == n
    ensures s[0] != '0' || s == "0"
  {
    if n < 10 then [DigitChar(n)]
    else
      var prefix := NatToString(n / 10);
      var s := prefix + [DigitChar(n % 10)];
      assert s[..|s| - 1] == prefix;
      s
  }

  /** `String.valueOf(w)`: a `-` for negative values, then the digits. */
  function ToString(w: int32): string
  {
    if w < 0 then "-" + NatToString(-(w as int)) else NatToString(w as int)
  }

  /** The strings `String.valueOf` produces: no `+`, no leading zero, no `-0`. */
  predicate Canonical(s: string)
  {
    || (|s| >= 1 && AllDigits(s) && (s[0] != '0' || s == "0"))
    || (|s| >= 2 && s[0] == '-' && AllDigits(s[1..]) && s[1] != '0')
  }

  /** Parsing the decimal string of a value gives the value back. */
  lemma ParseIntToString(w: int32)
    ensures Canonical(ToString(w))
    ensures ParseInt(ToString(w)) == Some(w)
  {
    var s := ToString(w);
    if w < 0 {
      assert s[1..] == NatToString(-(w as int));
    }
  }

  /** A string of digits that does not start with `0` has a positive value. */
  lemma {:induction false} LeadingNonZero(s: string)
    requires |s| >= 1 && AllDigits(s) && s[0] != '0'
    ensures DigitsValue(s) > 0
  {
    if |s| > 1 {
      LeadingNonZero(s[..|s| - 1]);
    }
  }

  /** Digits without leading zeros are the decimal string of their value. */
  lemma {:induction false} NatToStringOfDigits(s: string)
    requires |s| >= 1 && AllDigits(s) && (s[0] != '0' || s == "0")
    ensures NatToString(DigitsValue(s)) == s
  {
    if |s| > 1 {
      var init := s[..|s| - 1];
      LeadingNonZero(init);
      NatToStringOfDigits(init);
      var n := DigitsValue(s);
      var d := DigitValue(s[|s| - 1]);
      assert n == DigitsValue(init) * 10 + d;
      DivModTen(DigitsValue(init), d);
      assert DigitChar(d) == s[|s| - 1];
      assert s == init + [s[|s| - 1]];
    }
  }

  lemma DivModTen(q: nat, d: nat)
    requires d < 10
    ensures (q * 10 + d) / 10 == q && (q * 10 + d) % 10 == d
  {
  }

  /**
   * The decimal string of a parsed value is the parsed text itself when that
   * text is canonical: `ToString` and `ParseInt` are inverse on canonical text.
   */
  lemma ToStringParseInt(s: string, w: int32)
    requires Canonical(s) && ParseInt(s) == Some(w)
    ensures ToString(w) == s
  {
    if s[0] == '-' {
      NatToStringOfDigits(s[1..]);
      LeadingNonZero(s[1..]);
      assert s == "-" + s[1..];
    } else {
      NatToStringOfDigits(s);
    }
  }

  /** The value of `sign + digits`, where the sign is `""`, `"+"` or `"-"`. */
  function SignedValue(sign: string, digits: string): int
    requires AllDigits(digits)
  {
    if sign == "-" then -(DigitsValue(digits) as int) else DigitsValue(digits)
  }

  /**
   * Every parsed text is an optional sign followed by digits, and its value
   * is the signed value of those digits.
   */
  lemma ParseIntShape(s: string)
    requires ParseInt(s).Some?
    ensures |s| >= 1
    ensures s[0] == '-' || s[0] == '+' || IsDigit(s[0])
    ensures AllDigits(s[1..]) && (s[0] == '-' || s[0] == '+' ==> |s| >= 2)
    ensures (ParseInt(s).value < 0) ==> s[0] == '-'
    ensures s[0] == '-' ==> ParseInt(s).value as int == SignedValue("-", s[1..])
    ensures s[0] == '+' ==> ParseInt(s).value as int == SignedValue("+", s[1..])
    ensures IsDigit(s[0]) ==> ParseInt(s).value as int == SignedValue("", s)
  {
  }

  /**
   * Conversely, an optional sign followed by one or more digits whose signed
   * value is in the range of `int` is accepted with that value.
   */
  lemma ParseIntOfDigits(sign: string, digits: string)
    requires sign == "" || sign == "+" || sign == "-"
    requires |digits| >= 1 && AllDigits(digits)
    requires MIN_VALUE <= SignedValue(sign, digits) <= MAX_VALUE
    ensures ParseInt(sign + digits) == Some(SignedValue(sign, digits) as int32)
  {
    var s := sign + digits;
    if sign == "" {
      assert s == digits && s[0] != '-' && s[0] != '+';
    } else {
      assert s[0] == sign[0] && s[1..] == digits;
    }
  }

  /**
   * An optional sign followed by digits whose signed value is outside the
   * range of `int` is rejected.
   */
  lemma ParseIntOutOfRange(sign: string, digits: string)
    requires sign == "" || sign == "+" || sign == "-"
    requires |digits| >= 1 && AllDigits(digits)
    requires !(MIN_VALUE <= SignedValue(sign, digits) <= MAX_VALUE)
    ensures ParseInt(sign + digits) == None
  {
    var s := sign + digits;
    if sign == "" {
      assert s == digits && s[0] != '-' && s[0] != '+';
    } else {
      assert s[0] == sign[0] && s[1..] == digits;
    }
  }

  /** A sign alone and characters other than ASCII digits are rejected. */
  lemma ParseIntRejectsText()
    ensures ParseInt("") == None
    ensures ParseInt("-") == None
    ensures ParseInt("+") == None
    ensures ParseInt("abc") == None
    ensures ParseInt(" 5") == None
    ensures ParseInt("1.5") == None
  {
    assert !IsDigit("abc"[0]);
    assert !IsDigit(" 5"[0]);
    assert !IsDigit("1.5"[1]);
  }

  /** The decimal strings of the bounds of `int` and of one past them. */
  lemma DecimalBounds()
    ensures NatToString(2147483647) == "2147483647"
    ensures NatToString(2147483648) == "2147483648"
    ensures NatToString(2147483649) == "2147483649"
  {
    assert NatToString(2) == "2";
    assert NatToString(21) == NatToString(2) + "1";
    assert NatToString(214) == NatToString(21) + "4";
    assert NatToString(2147) == NatToString(214) + "7";
    assert NatToString(21474) == NatToString(2147) + "4";
    assert NatToString(214748) == NatToString(21474) + "8";
    assert NatToString(2147483) == NatToString(214748) + "3";
    assert NatToString(21474836) == NatToString(2147483) + "6";
    assert NatToString(214748364) == NatToString(21474836) + "4";
    assert NatToString(2147483647) == NatToString(214748364) + "7";
    assert NatToString(21) == NatToString(2) + "1";
    assert NatToString(214) == NatToString(21) + "4";
    assert NatToString(2147) == NatToString(214) + "7";
    assert NatToString(21474) == NatToString(2147) + "4";
    assert NatToString(214748) == NatToString(21474) + "8";
    assert NatToString(2147483) == NatToString(214748) + "3";
    assert NatToString(21474836) == NatToString(2147483) + "6";
    assert NatToString(214748364) == NatToString(21474836) + "4";
    assert NatToString(2147483648) == NatToString(214748364) + "8";
    assert NatToString(21) == NatToString(2) + "1";
    assert NatToString(214) == NatToString(21) + "4";
    assert NatToString(2147) == NatToString(214) + "7";
    assert NatToString(21474) == NatToString(2147) + "4";
    assert NatToString(214748) == NatToString(21474) + "8";
    assert NatToString(2147483) == NatToString(214748) + "3";
    assert NatToString(21474836) == NatToString(2147483) + "6";
    assert NatToString(214748364) == NatToString(21474836) + "4";
    assert NatToString(2147483649) == NatToString(214748364) + "9";
  }

  /** The bounds of `int` are accepted, one past either bound is rejected. */
  lemma ParseIntRange()
    ensures ParseInt("2147483647") == Some(MAX_VALUE as int32)
    ensures ParseInt("-2147483648") == Some(MIN_VALUE as int32)
    ensures ParseInt("2147483648") == None
    ensures ParseInt("-2147483649") == None
  {
    DecimalBounds();
    assert "-2147483648"[1..] == "2147483648";
    assert "-2147483649"[1..] == "2147483649";
  }

  /** A `+` sign, leading zeros and `-0` are accepted. */
  lemma ParseIntLenient()
    ensures ParseInt("+5") == Some(5)
    ensures ParseInt("007") == Some(7)
    ensures ParseInt("-0") == Some(0)
  {
    assert "+5"[1..] == "5" && "5"[..0] == "";
    assert "007"[..2] == "00" && "00"[..1] == "0" && "0"[..0] == "";
    assert "-0"[1..] == "0";
  }
}
