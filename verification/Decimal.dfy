/** Decimal numerals, printed and read back. */
module Decimal {

  function DigitChar(d: nat): (c: char)
    requires d < 10
    ensures IsDigit(c) && DigitValue(c) == d
  {
    (d + '0' as int) as char
  }

  predicate IsDigit(c: char) {
    '0' <= c <= '9'
  }

  function DigitValue(c: char): nat
    requires IsDigit(c)
  {
    c as int - '0' as int
  }

  predicate AllDigits(s: string) {
    s != [] && forall i :: 0 <= i < |s| ==> IsDigit(s[i])
  }

  function PrintNat(n: nat): (s: string)
    ensures AllDigits(s)
  {
    if n < 10 then [DigitChar(n)] else PrintNat(n / 10) + [DigitChar(n % 10)]
  }

  function ReadNat(s: string): nat
    requires AllDigits(s)
  {
    var last := |s| - 1;
    (if last == 0 then 0 else ReadNat(s[..last]) * 10) + DigitValue(s[last])
  }

  /** Reading a printed number gives the number back. */
  lemma {:induction false} ReadPrintNat(n: nat)
    ensures ReadNat(PrintNat(n)) == n
  {
    if n >= 10 {
      ReadPrintNat(n / 10);
      var s := PrintNat(n);
      assert s[..|s| - 1] == PrintNat(n / 10);
    }
  }

  function Pow10(k: nat): nat {
    if k == 0 then 1 else 10 * Pow10(k - 1)
  }

  /** Place value: the digits in front count ten times for each digit behind them. */
  lemma {:induction false} ReadSplit(a: string, b: string)
    requires AllDigits(a) && AllDigits(b)
    ensures AllDigits(a + b) && ReadNat(a + b) == ReadNat(a) * Pow10(|b|) + ReadNat(b)
    ensures |b| == 1 ==> ReadNat(b) == b[0] as int - 48
    decreases |b|
  {
    hide Pow10;
    var last := |b| - 1;
    assert (a + b)[..|a + b| - 1] == a + b[..last];
    Pow10Step(last);
    if last == 0 {
      assert a + b[..0] == a;
    } else {
      ReadSplit(a, b[..last]);
      TenTimes(ReadNat(a), Pow10(last), ReadNat(b[..last]));
    }
  }

  lemma Pow10Step(k: nat)
    ensures Pow10(0) == 1 && Pow10(k + 1) == 10 * Pow10(k)
  {
  }

  lemma TenTimes(x: nat, p: nat, y: nat)
    ensures (x * p + y) * 10 == x * (10 * p) + y * 10
  {
    assert x * (10 * p) == 10 * (x * p);
  }

  /** A printed number has no leading zero. */
  lemma {:induction false} NoLeadingZero(n: nat)
    ensures PrintNat(n)[0] == '0' <==> n == 0
  {
    if n >= 10 {
      NoLeadingZero(n / 10);
    }
  }

  function PrintInt(n: int): string {
    if n < 0 then "-" + PrintNat(-n) else PrintNat(n)
  }

  /** An optional sign and at least one digit. */
  predicate IsInteger(s: string) {
    AllDigits(Unsigned(s))
  }

  function Unsigned(s: string): string {
    if s != [] && (s[0] == '+' || s[0] == '-') then s[1..] else s
  }

  function ReadInt(s: string): int
    requires IsInteger(s)
  {
    if s[0] == '-' then 0 - ReadNat(Unsigned(s)) else ReadNat(Unsigned(s))
  }

  /** A sign in front, or none. */
  lemma ReadSigned(digits: string)
    requires AllDigits(digits)
    ensures IsInteger(digits) && ReadInt(digits) == ReadNat(digits)
    ensures IsInteger("+" + digits) && ReadInt("+" + digits) == ReadNat(digits)
    ensures IsInteger("-" + digits) && ReadInt("-" + digits) == 0 - ReadNat(digits)
  {
    assert ("+" + digits)[1..] == digits && ("-" + digits)[1..] == digits;
    assert digits[0] != '+' && digits[0] != '-';
  }

  lemma ReadPrintInt(n: int)
    ensures IsInteger(PrintInt(n)) && ReadInt(PrintInt(n)) == n
    ensures PrintInt(n)[0] == '-' <==> n < 0
  {
    ReadPrintNat(if n < 0 then -n else n);
  }
}
