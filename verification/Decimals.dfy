/** Numbers in decimal notation. */
module Decimals {
  import opened Base

  predicate IsDigit(c: char) {
    '0' <= c <= '9'
  }

  function Digit(d: nat): char
    requires d < 10
  {
    '0' + d as char
  }

  function Decimal(n: nat): string {
    if n < 10 then [Digit(n)] else Decimal(n / 10) + [Digit(n % 10)]
  }

  function ValueOf(s: string): nat
    requires forall i :: 0 <= i < |s| ==> IsDigit(s[i])
  {
    if s == "" then 0
    else
      assert IsDigit(s[|s| - 1]);
      10 * ValueOf(s[..|s| - 1]) + (s[|s| - 1] - '0') as nat
  }

  /** A number is read back from its digits. */
  lemma {:induction false} DecimalIsDigits(n: nat)
    ensures Decimal(n) != "" && forall i :: 0 <= i < |Decimal(n)| ==> IsDigit(Decimal(n)[i])
    ensures ValueOf(Decimal(n)) == n
  {
    if n < 10 {
      assert ValueOf("") == 0;
      assert [Digit(n)][..0] == "";
    } else {
      DecimalIsDigits(n / 10);
      assert Decimal(n)[..|Decimal(n)| - 1] == Decimal(n / 10);
    }
  }

  lemma DecimalIsInjective(m: nat, n: nat)
    requires Decimal(m) == Decimal(n)
    ensures m == n
  {
    DecimalIsDigits(m);
    DecimalIsDigits(n);
  }

  /** A signed number: the sign is not a digit. */
  function Signed(n: int): string {
    if n < 0 then "-" + Decimal(-n) else Decimal(n)
  }

  lemma SignedIsInjective(m: int, n: int)
    requires Signed(m) == Signed(n)
    ensures m == n
  {
    DecimalIsDigits(if m < 0 then -m else m);
    DecimalIsDigits(if n < 0 then -n else n);
    assert m < 0 ==> Signed(m)[0] == '-' && Signed(m)[1..] == Decimal(-m);
    assert n < 0 ==> Signed(n)[0] == '-' && Signed(n)[1..] == Decimal(-n);
    assert m >= 0 ==> IsDigit(Signed(m)[0]);
    assert n >= 0 ==> IsDigit(Signed(n)[0]);
    if m < 0 && n < 0 {
      DecimalIsInjective(-m, -n);
    } else if m >= 0 && n >= 0 {
      DecimalIsInjective(m, n);
    }
  }

  predicate IsDigits(s: string) {
    s != "" && forall i :: 0 <= i < |s| ==> IsDigit(s[i])
  }

  /** Digits without a leading zero. */
  predicate IsDecimalText(s: string) {
    IsDigits(s) && (s[0] != '0' || |s| == 1)
  }

  predicate IsIntegerText(s: string) {
    IsDecimalText(s) || (s != "" && s[0] == '-' && IsDecimalText(s[1..]) && s[1] != '0')
  }

  lemma {:induction false} DecimalHasNoLeadingZero(n: nat)
    ensures IsDecimalText(Decimal(n)) && (n > 0 ==> Decimal(n)[0] != '0')
  {
    DecimalIsDigits(n);
    if n >= 10 {
      DecimalHasNoLeadingZero(n / 10);
    }
  }

  lemma DecimalOneMore(v: nat, c: char)
    requires v > 0 && IsDigit(c)
    ensures Decimal(10 * v + (c - '0') as nat) == Decimal(v) + [c]
  {
    var n := 10 * v + (c - '0') as nat;
    assert n / 10 == v && n % 10 == (c - '0') as nat;
  }

  lemma OneDigit(s: string)
    requires |s| == 1 && IsDigit(s[0])
    ensures ValueOf(s) == (s[0] - '0') as nat && Decimal(ValueOf(s)) == s
  {
    assert s[..0] == "" && ValueOf("") == 0;
    assert s == [s[0]];
  }

  lemma {:induction false} DigitsAreDecimal(s: string)
    requires IsDecimalText(s)
    ensures Decimal(ValueOf(s)) == s && (s[0] != '0' ==> ValueOf(s) > 0)
  {
    var n := |s| - 1;
    if n == 0 {
      OneDigit(s);
    } else {
      var front := s[..n];
      assert IsDecimalText(front);
      DigitsAreDecimal(front);
      DecimalOneMore(ValueOf(front), s[n]);
      assert s == front + [s[n]];
    }
  }

  function IntegerOf(s: string): int
    requires IsIntegerText(s)
  {
    if IsDecimalText(s) then ValueOf(s) else -(ValueOf(s[1..]) as int)
  }

  lemma IntegerIsSigned(s: string)
    requires IsIntegerText(s)
    ensures Signed(IntegerOf(s)) == s
  {
    if IsDecimalText(s) {
      DigitsAreDecimal(s);
    } else {
      DigitsAreDecimal(s[1..]);
      assert s == "-" + s[1..];
    }
  }

  lemma SignedIsInteger(n: int)
    ensures IsIntegerText(Signed(n)) && IntegerOf(Signed(n)) == n
  {
    var m := if n < 0 then -n else n;
    DecimalHasNoLeadingZero(m);
    DecimalIsDigits(m);
    if n < 0 {
      assert Signed(n)[1..] == Decimal(m);
    }
  }

  /** An integer that 64 bits hold. */
  predicate IsI64Text(s: string) {
    IsIntegerText(s) && -0x8000_0000_0000_0000 <= IntegerOf(s) < 0x8000_0000_0000_0000
  }

  /** The texts of 64-bit integers, and no others. */
  lemma IntegerTextsExact(s: string)
    ensures IsI64Text(s) <==> exists n: I64 :: s == Signed(n)
  {
    if IsI64Text(s) {
      IntegerIsSigned(s);
      var n: I64 := IntegerOf(s);
      assert s == Signed(n);
    }
    if n: I64 :| s == Signed(n) {
      SignedIsInteger(n);
    }
  }
}
