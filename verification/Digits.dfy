/** Decimal numerals as text: printing, reading and padding. */
module Digits {

  predicate IsDigit(c: char)
  {
    '0' <= c <= '9'
  }

  predicate AllDigits(s: string)
  {
    forall i :: 0 <= i < |s| ==> IsDigit(s[i])
  }

  function DigitChar(d: nat): (c: char)
    requires d < 10
    ensures IsDigit(c) && DigitValue(c) == d
  {
    ('0' as int + d) as char
  }

  function DigitValue(c: char): (d: nat)
    requires IsDigit(c)
    ensures d < 10
  {
    c as int - '0' as int
  }

  /** The digits of a natural number, without leading zeros. */
  function Decimal(n: nat): (s: string)
    ensures s != [] && AllDigits(s)
  {
    if n < 10 then [DigitChar(n)] else Decimal(n / 10) + [DigitChar(n % 10)]
  }

  /** The number a digit string stands for; the empty string stands for 0. */
  function Number(s: string): nat
    requires AllDigits(s)
  {
    if s == [] then 0 else 10 * Number(s[..|s| - 1]) + DigitValue(s[|s| - 1])
  }

  /** Reading a printed number gives the number. */
  lemma {:induction false} NumberOfDecimal(n: nat)
    ensures Number(Decimal(n)) == n
  {
    if n >= 10 {
      NumberOfDecimal(n / 10);
      assert Decimal(n)[..|Decimal(n)| - 1] == Decimal(n / 10);
    }
  }

  /** Different numbers are printed differently. */
  lemma DecimalIsInjective(m: nat, n: nat)
    requires Decimal(m) == Decimal(n)
    ensures m == n
  {
    NumberOfDecimal(m);
    NumberOfDecimal(n);
  }

  /** How many digits a number has, up to six. */
  lemma DecimalLength(n: nat)
    ensures n < 1000 ==> |Decimal(n)| <= 3
    ensures 1000 <= n <= 9_999 ==> |Decimal(n)| == 4
    ensures 10_000 <= n <= 99_999 ==> |Decimal(n)| == 5
    ensures 100_000 <= n <= 999_999 ==> |Decimal(n)| == 6
    ensures 1_000_000 <= n ==> |Decimal(n)| >= 7
  {
    var n1 := n / 10;
    var n2 := n1 / 10;
    var n3 := n2 / 10;
    var n4 := n3 / 10;
    var n5 := n4 / 10;
    assert |Decimal(n)| == if n < 10 then 1 else 1 + |Decimal(n1)|;
    assert |Decimal(n1)| == if n1 < 10 then 1 else 1 + |Decimal(n2)|;
    assert |Decimal(n2)| == if n2 < 10 then 1 else 1 + |Decimal(n3)|;
    assert |Decimal(n3)| == if n3 < 10 then 1 else 1 + |Decimal(n4)|;
    assert |Decimal(n4)| == if n4 < 10 then 1 else 1 + |Decimal(n5)|;
    assert |Decimal(n5)| == if n5 < 10 then 1 else 1 + |Decimal(n5 / 10)|;
  }

  /** Two digits, with a leading zero where needed. */
  function Pad2(n: nat): (s: string)
    requires n < 100
    ensures |s| == 2 && AllDigits(s)
  {
    [DigitChar(n / 10), DigitChar(n % 10)]
  }

  lemma NumberOfTwo(s: string)
    requires |s| == 2 && AllDigits(s)
    ensures Number(s) == 10 * DigitValue(s[0]) + DigitValue(s[1])
  {
    assert s[..1][..0] == [];
    assert Number(s[..1]) == DigitValue(s[0]);
  }

  lemma NumberOfPad2(n: nat)
    requires n < 100
    ensures Number(Pad2(n)) == n
  {
    NumberOfTwo(Pad2(n));
  }

  /** Dropping the last digit divides by ten. */
  lemma DecimalDropsLast(n: nat)
    requires n >= 10
    ensures Decimal(n)[..|Decimal(n)| - 1] == Decimal(n / 10)
  {}

  // ----- Texts without other characters -----

  /** The digits of a text, everything else removed. */
  function DigitsOnly(s: string): (d: string)
    ensures AllDigits(d)
  {
    if s == [] then []
    else if IsDigit(s[0]) then [s[0]] + DigitsOnly(s[1..])
    else DigitsOnly(s[1..])
  }

  lemma {:induction false} DigitsOnlyOfDigits(s: string)
    requires AllDigits(s)
    ensures DigitsOnly(s) == s
  {
    if s != [] {
      DigitsOnlyOfDigits(s[1..]);
    }
  }
}
