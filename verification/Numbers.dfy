/** Numbers as text: canonical decimal, and what a string of digits means in base 10 or 16. */
module Numbers {
  import opened Common

  predicate IsDecimalDigit(c: char) {
    '0' <= c <= '9'
  }

  function DecimalDigit(d: nat): (c: char)
    requires d < 10
    ensures IsDecimalDigit(c)
  {
    (d + 48) as char
  }

  function DecimalValue(c: char): nat
    requires IsDecimalDigit(c)
  {
    c as int - 48
  }

  predicate AllDecimal(s: string) {
    forall i | 0 <= i < |s| :: IsDecimalDigit(s[i])
  }

  /** The decimal text of a number, without leading zeros. */
  function Decimal(n: nat): (s: string)
    ensures |s| > 0
  {
    if n < 10 then [DecimalDigit(n)] else Decimal(n / 10) + [DecimalDigit(n % 10)]
  }

  /** The number a digit string stands for. */
  function Number(s: string): nat
    requires AllDecimal(s)
  {
    if s == [] then 0 else 10 * Number(s[..|s| - 1]) + DecimalValue(s[|s| - 1])
  }

  lemma {:induction false} DecimalIsDigits(n: nat)
    ensures AllDecimal(Decimal(n))
    ensures n > 0 ==> Decimal(n)[0] != '0'
  {
    if n >= 10 {
      DecimalIsDigits(n / 10);
    }
  }

  /** Reading the decimal text of a number gives the number. */
  lemma {:induction false} NumberOfDecimal(n: nat)
    ensures AllDecimal(Decimal(n)) && Number(Decimal(n)) == n
  {
    DecimalIsDigits(n);
    var s := Decimal(n);
    if n >= 10 {
      NumberOfDecimal(n / 10);
      assert s[..|s| - 1] == Decimal(n / 10);
    } else {
      assert s[..0] == [];
    }
  }

  /** The text is canonical: any digit string without a leading zero is the decimal text of its number. */
  lemma {:induction false} DecimalIsCanonical(s: string)
    requires AllDecimal(s) && s != [] && (s[0] != '0' || |s| == 1)
    ensures Decimal(Number(s)) == s
    decreases |s|
  {
    var n := |s| - 1;
    if n > 0 {
      DecimalIsCanonical(s[..n]);
      NumberIsPositive(s[..n]);
      assert Number(s) / 10 == Number(s[..n]) && Number(s) % 10 == DecimalValue(s[n]);
      assert s == s[..n] + [s[n]];
    } else {
      assert s[..0] == [];
    }
  }

  lemma {:induction false} NumberIsPositive(s: string)
    requires AllDecimal(s) && s != [] && s[0] != '0'
    ensures Number(s) > 0
    decreases |s|
  {
    if |s| > 1 {
      NumberIsPositive(s[..|s| - 1]);
    } else {
      assert DecimalValue(s[0]) > 0;
    }
  }

  function Power10(k: nat): (p: nat)
    ensures p > 0
  {
    if k == 0 then 1 else 10 * Power10(k - 1)
  }

  lemma {:induction false} DecimalLength(n: nat, k: nat)
    requires n < Power10(k) && k > 0
    ensures |Decimal(n)| <= k
    decreases k
  {
    assert Power10(1) == 10;
    if n >= 10 {
      DecimalLength(n / 10, k - 1);
    }
  }

  lemma PowerOfTenBounds()
    ensures Power10(18) == 1_000_000_000_000_000_000
    ensures U64_SIZE <= Power10(20) && U128_SIZE <= Power10(39) && U8_SIZE <= Power10(3)
  {
    assert Power10(3) == 1000;
    assert Power10(6) == 1000 * Power10(3);
    assert Power10(9) == 1000 * Power10(6);
    assert Power10(12) == 1000 * Power10(9);
    assert Power10(15) == 1000 * Power10(12);
    assert Power10(18) == 1000 * Power10(15);
    assert Power10(20) == 100 * Power10(18);
    assert Power10(22) == 100 * Power10(20);
    assert Power10(25) == 1000 * Power10(22);
    assert Power10(28) == 1000 * Power10(25);
    assert Power10(31) == 1000 * Power10(28);
    assert Power10(34) == 1000 * Power10(31);
    assert Power10(37) == 1000 * Power10(34);
    assert Power10(39) == 100 * Power10(37);
  }

  // ----- either base -----

  /** The value of a digit; letters of either case count from ten. */
  function DigitValue(c: char): nat {
    if '0' <= c <= '9' then c as int - 48
    else if 'a' <= c <= 'z' then c as int - 87
    else if 'A' <= c <= 'Z' then c as int - 55
    else 36
  }

  predicate AllDigits(s: string, radix: nat) {
    forall i | 0 <= i < |s| :: DigitValue(s[i]) < radix
  }

  function NumberIn(s: string, radix: nat): nat
    requires AllDigits(s, radix)
  {
    if s == [] then 0 else radix * NumberIn(s[..|s| - 1], radix) + DigitValue(s[|s| - 1])
  }

  lemma {:induction false} NumberInTen(s: string)
    requires AllDecimal(s)
    ensures AllDigits(s, 10) && NumberIn(s, 10) == Number(s)
    decreases |s|
  {
    if s != [] {
      NumberInTen(s[..|s| - 1]);
    }
  }
}
