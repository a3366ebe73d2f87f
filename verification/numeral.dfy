/**
 * Decimal numerals for `i32`: Rust's `str::parse::<i32>` (how the tokenizer
 * recognises a number) and the `Display` formatting with which the session
 * prints a result.
 */
module Numeral {
  import opened Int32
  import opened Syntax

  predicate IsDigit(c: char) {
    '0' <= c <= '9'
  }

  predicate AllDigits(s: string) {
    forall i :: 0 <= i < |s| ==> IsDigit(s[i])
  }

  function DigitValue(c: char): nat
    requires IsDigit(c)
  {
    c as int - '0' as int
  }

  function DigitChar(d: nat): (c: char)
    requires d < 10
    ensures IsDigit(c) && DigitValue(c) == d
  {
    ('0' as int + d) as char
  }

  /** The number a string of decimal digits denotes, most significant digit first. */
  function DigitsValue(s: string): nat
    requires AllDigits(s)
  {
    if s == [] then 0 else DigitsValue(s[..|s| - 1]) * 10 + DigitValue(s[|s| - 1])
  }

  /**
   * `s.parse::<i32>()`: an optional `+` or `-`, then one or more ASCII digits,
   * and the value must fit in `i32`. A sign with nothing after it is rejected,
   * as is the empty string. Rust accumulates with checked arithmetic; since the
   * partial values only grow in magnitude, an overflow at some digit happens
   * exactly when the complete value is out of range, which is the check this function makes.
   */
  function ParseI32(s: string): Option<i32> {
    if s == [] then None
    else if (s[0] == '+' || s[0] == '-') && |s| == 1 then None
    else SignedDigits(s[0] == '-', if s[0] == '+' || s[0] == '-' then s[1..] else s)
  }

  /** The digits after the sign: all of them must be digits, and the signed value must fit. */
  function SignedDigits(negative: bool, digits: string): Option<i32> {
    if !AllDigits(digits) then None
    else
      var v: int := if negative then -(DigitsValue(digits) as int) else DigitsValue(digits);
      if InRange(v) then Some(v as i32) else None
  }

  /** The decimal digits of `k`, without leading zeros. */
  function NatDigits(k: nat): (s: string)
    ensures |s| >= 1 && AllDigits(s) && DigitsValue(s) == k
    ensures s[0] == '0' ==> k == 0
  {
    if k < 10 then [DigitChar(k)]
    else
      var prefix := NatDigits(k / 10);
      var s := prefix + [DigitChar(k % 10)];
      assert s[..|s| - 1] == prefix;
      s
  }

  /** `format!("{}", n)` for an `i32`: a `-` for negative values, then the digits. */
  function Show(n: i32): (s: string)
    ensures |s| >= 1 && (IsDigit(s[0]) || s[0] == '-')
    ensures forall i :: 0 < i < |s| ==> IsDigit(s[i])
    ensures s[0] == '0' ==> |s| == 1 && n == 0
    ensures s[0] == '-' ==> n < 0 && |s| >= 2 && s[1] != '0'
  {
    if n < 0 then "-" + NatDigits(-(n as int)) else NatDigits(n as nat)
  }

  /** What `Show` prints, `ParseI32` reads back: the printed result is a valid number. */
  lemma ParseShow(n: i32)
    ensures ParseI32(Show(n)) == Some(n)
  {
    var s := Show(n);
    if n < 0 {
      assert s[1..] == NatDigits(-(n as int));
    } else {
      assert s == NatDigits(n as nat);
    }
  }

  /** Whatever `ParseI32` accepts consists of an optional sign followed by digits only. */
  lemma ParseI32Shape(s: string)
    requires ParseI32(s).Some?
    ensures |s| >= 1 && (IsDigit(s[0]) || ((s[0] == '+' || s[0] == '-') && |s| >= 2))
    ensures forall i :: 0 < i < |s| ==> IsDigit(s[i])
  {
    if s[0] == '+' || s[0] == '-' {
      forall i | 0 < i < |s| ensures IsDigit(s[i]) {
        assert s[i] == s[1..][i - 1];
      }
    }
  }

  /**
   * The converse of `ParseI32Shape`, with the value: an optional sign followed
   * by one or more digits is accepted exactly when its value fits in `i32`,
   * and then denotes that value; leading zeros are allowed.
   */
  lemma ParseI32Digits(sign: string, ds: string)
    requires sign == "" || sign == "+" || sign == "-"
    requires |ds| >= 1 && AllDigits(ds)
    ensures var v := if sign == "-" then -(DigitsValue(ds) as int) else DigitsValue(ds) as int;
      ParseI32(sign + ds) == if InRange(v) then Some(v as i32) else None
  {
    var s := sign + ds;
    assert IsDigit(ds[0]);
    if sign == "" {
      assert s == ds;
      assert ParseI32(s) == SignedDigits(false, ds);
    } else if sign == "+" {
      assert s[0] == '+' && s[1..] == ds;
      assert ParseI32(s) == SignedDigits(false, ds);
    } else {
      assert s[0] == '-' && s[1..] == ds;
      assert ParseI32(s) == SignedDigits(true, ds);
    }
  }

  /** A lone sign is not a number; a sign followed by digits is. */
  lemma SignedNumerals()
    ensures ParseI32("+") == None && ParseI32("-") == None
    ensures ParseI32("+5") == Some(5) && ParseI32("-5") == Some(-5)
    ensures ParseI32("2147483647") == Some(0x7fff_ffff as i32)
    ensures ParseI32("-2147483648") == Some(-0x8000_0000 as i32)
    ensures ParseI32("2147483648") == None
  {
    assert "+5"[1..] == "5" && "-5"[1..] == "5";
    assert DigitsValue("5") == 5 by {
      assert "5"[..0] == "";
    }
    assert DigitsValue("2147483647") == 2147483647 by {
      DigitsPrefixes("2147483647");
    }
    assert DigitsValue("2147483648") == 2147483648 by {
      DigitsPrefixes("2147483648");
    }
    assert "-2147483648"[1..] == "2147483648";
  }

  /** Unfolds `DigitsValue` on the ten-digit strings `SignedNumerals` mentions. */
  lemma DigitsPrefixes(s: string)
    requires s == "2147483647" || s == "2147483648"
    ensures DigitsValue(s) == if s == "2147483647" then 2147483647 else 2147483648
  {
    assert s[..9] == "214748364";
    assert "214748364"[..8] == "21474836";
    assert "21474836"[..7] == "2147483";
    assert "2147483"[..6] == "214748";
    assert "214748"[..5] == "21474";
    assert "21474"[..4] == "2147";
    assert "2147"[..3] == "214";
    assert "214"[..2] == "21";
    assert "21"[..1] == "2";
    assert "2"[..0] == "";
  }
}
