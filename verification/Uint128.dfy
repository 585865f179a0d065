/** The driver's 128-bit integer: two 64-bit words, printed in chunks of eighteen decimal digits. */
module Uint128 {
  import opened Common
  import opened Numbers

  const QUINTILLION: u64 := 1_000_000_000_000_000_000

  datatype Uint128 = Uint128(high: u64, low: u64)

  function Value(u: Uint128): u128 {
    u.high * U64_SIZE + u.low
  }

  function OfValue(n: u128): (u: Uint128)
    ensures Value(u) == n
  {
    Uint128(n / U64_SIZE, n % U64_SIZE)
  }

  lemma ValueIsInjective(u: Uint128, v: Uint128)
    requires Value(u) == Value(v)
    ensures u == v
  {}

  /** The 128-by-64 division of the standard library; it panics unless the quotient fits. */
  function Div64(high: u64, low: u64, divisor: u64): (result: (u64, u64))
    requires high < divisor
    ensures result.0 * divisor + result.1 == high * U64_SIZE + low && result.1 < divisor
  {
    var n := high * U64_SIZE + low;
    QuotientFits(n, high, low, divisor);
    (n / divisor, n % divisor)
  }

  lemma QuotientFits(n: nat, high: u64, low: u64, divisor: u64)
    requires high < divisor && n == high * U64_SIZE + low
    ensures 0 <= n / divisor < U64_SIZE && 0 <= n % divisor < divisor
    ensures (n / divisor) * divisor + n % divisor == n
  {
    assert n < U64_SIZE * (high + 1) <= U64_SIZE * divisor;
    if n / divisor >= U64_SIZE {
      ProductGrows(U64_SIZE, n / divisor, divisor);
      assert false;
    }
  }

  lemma ProductGrows(a: nat, b: nat, factor: nat)
    requires a <= b
    ensures a * factor <= b * factor
  {}

  /** Two chained divisions divide the whole number by 10^18; both meet the division's precondition. */
  method DivideByQuintillion(high: u64, low: u64) returns (quotient: Uint128, rem: u64)
    ensures Value(quotient) * QUINTILLION + rem == high * U64_SIZE + low
    ensures rem < QUINTILLION
  {
    var upper := Div64(0, high, QUINTILLION);
    var lower := Div64(upper.1, low, QUINTILLION);
    return Uint128(upper.0, lower.0), lower.1;
  }

  /** What is still to print of a number whose upper part is `rest` and whose current chunk has `k` digits left. */
  function Left(rest: nat, k: nat, rem: nat): nat {
    rest * Power10(k) + rem
  }

  /** Printing the last digit of a chunk moves one digit of the decimal text; the text ends exactly at the break. */
  lemma PrintDigit(rest: nat, k: nat, rem: nat, printed: string)
    requires k > 0 && rem < Power10(k) && Left(rest, k, rem) > 0
    ensures rem / 10 < Power10(k - 1)
    ensures rest == 0 && rem / 10 == 0 ==>
              Decimal(Left(rest, k, rem)) + printed == [DecimalDigit(rem % 10)] + printed
    ensures !(rest == 0 && rem / 10 == 0) ==>
              && Left(rest, k - 1, rem / 10) > 0
              && Decimal(Left(rest, k, rem)) + printed
                 == Decimal(Left(rest, k - 1, rem / 10)) + ([DecimalDigit(rem % 10)] + printed)
  {
    var p := Power10(k - 1);
    assert Left(rest, k, rem) == 10 * (rest * p) + rem;
    assert Left(rest, k - 1, rem / 10) == rest * p + rem / 10;
    if rest > 0 {
      ProductGrows(1, rest, p);
    }
    assert Left(rest, k, rem) / 10 == Left(rest, k - 1, rem / 10);
    assert Left(rest, k, rem) % 10 == rem % 10;
  }

  lemma DecimalOfDigit(d: nat)
    requires d < 10
    ensures Decimal(d) == [DecimalDigit(d)]
  {}

  /** A chunk starts with all eighteen digits to print, and ends with none. */
  lemma ChunkStart(n: nat, rest: nat, rem: nat)
    requires n == rest * QUINTILLION + rem
    ensures Left(rest, 18, rem) == n && Power10(18) == QUINTILLION
  {
    PowerOfTenBounds();
    hide Power10;
  }

  lemma ChunkEnd(rest: nat, rem: nat)
    requires rem < Power10(0)
    ensures Left(rest, 0, rem) == rest
  {}

  /** The bytes of the number in base ten: exactly its canonical decimal text, for every value. */
  method Bytes(u: Uint128) returns (result: string)
    ensures result == Decimal(Value(u))
  {
    hide Decimal, Power10, Left;
    if u.high == 0 && u.low == 0 {
      DecimalOfDigit(0);
      return "0";
    }
    var high: u64, low: u64 := u.high, u.low;
    var buffer := new char[40];
    var index := buffer.Length;
    var length := index;
    ghost var whole := Decimal(Value(u));
    PowerOfTenBounds();
    DecimalLength(Value(u), 39);
    ghost var n: nat := high * U64_SIZE + low;
    while high != 0 || low != 0
      invariant 0 <= index <= 40
      invariant n == high * U64_SIZE + low
      invariant whole == (if n > 0 then Decimal(n) else "") + buffer[index..]
      decreases n
    {
      var quotient: Uint128, rem: u64 := DivideByQuintillion(high, low);
      high, low := quotient.high, quotient.low;
      ghost var rest := Value(quotient);
      ChunkStart(n, rest, rem);
      var j := 0;
      while j < 18
        invariant 0 <= j <= 18 && 0 <= index <= 40 && rem < Power10(18 - j)
        invariant Left(rest, 18 - j, rem) > 0
        invariant whole == Decimal(Left(rest, 18 - j, rem)) + buffer[index..]
      {
        ghost var printed := buffer[index..];
        PrintDigit(rest, 18 - j, rem, printed);
        index := index - 1;
        buffer[index] := DecimalDigit(rem % 10);
        assert buffer[index..] == [DecimalDigit(rem % 10)] + printed;
        rem := rem / 10;
        if high == 0 && low == 0 && rem == 0 {
          break;
        }
        j := j + 1;
      }
      if j == 18 {
        ChunkEnd(rest, rem);
      }
      n := rest;
    }
    result := buffer[index..];
  }

  // ----- parsing -----

  datatype ParseFailure = EmptyString | InvalidFormat | OutOfRange

  predicate Signed(input: string) {
    input != [] && (input[0] == '+' || input[0] == '-')
  }

  function Magnitude(input: string): string {
    if Signed(input) then input[1..] else input
  }

  /** The words of a negative number: the low bits of the shifted number's magnitude, and of its two's complement. */
  function NegativeWords(n: nat): Uint128 {
    Uint128((n + U64_SIZE - 1) / U64_SIZE % U64_SIZE, (0 - n) % U64_SIZE)
  }

  /** Reads a number in base 10 or 16. A sign is accepted, and a negative number is not rejected. */
  function Parse(input: string, radix: nat): (result: Result<Uint128, ParseFailure>)
    requires radix == 10 || radix == 16
  {
    var digits := Magnitude(input);
    if input == [] then Err(EmptyString)
    else if digits == [] || !AllDigits(digits, radix) then Err(InvalidFormat)
    else if input[0] == '-' then Ok(NegativeWords(NumberIn(digits, radix)))
    else if NumberIn(digits, radix) > U128_MAX then Err(OutOfRange)
    else Ok(Uint128(NumberIn(digits, radix) / U64_SIZE, NumberIn(digits, radix) % U64_SIZE))
  }

  /** Printing and parsing undo each other on every value. */
  lemma ParseOfDecimal(u: Uint128)
    ensures Parse(Decimal(Value(u)), 10) == Ok(u)
  {
    var s := Decimal(Value(u));
    NumberOfDecimal(Value(u));
    NumberInTen(s);
    assert IsDecimalDigit(s[0]);
    ValueIsInjective(Parse(s, 10).value, u);
  }

  /** What is accepted: an optional sign and at least one digit, with no upper limit behind a minus sign. */
  lemma ParseAccepts(input: string, radix: nat)
    requires radix == 10 || radix == 16
    ensures Parse(input, radix).Ok? <==>
              && Magnitude(input) != [] && AllDigits(Magnitude(input), radix)
              && (input[0] == '-' || NumberIn(Magnitude(input), radix) <= U128_MAX)
  {}

  /** What each refusal means. */
  lemma ParseRefusals(input: string, radix: nat)
    requires radix == 10 || radix == 16
    ensures Parse(input, radix) == Err(EmptyString) <==> input == ""
    ensures Parse(input, radix) == Err(InvalidFormat) <==>
              input != "" && (Magnitude(input) == [] || !AllDigits(Magnitude(input), radix))
    ensures Parse(input, radix) == Err(OutOfRange) <==>
              && Magnitude(input) != [] && AllDigits(Magnitude(input), radix)
              && input[0] != '-' && NumberIn(Magnitude(input), radix) > U128_MAX
  {}

  /** How many 64-bit words a number takes, or the number divided by 2^64 and rounded up. */
  function Groups(n: nat): nat {
    (n + U64_SIZE - 1) / U64_SIZE
  }

  lemma GroupsAre(n: nat, groups: nat, missing: nat)
    requires n == groups * U64_SIZE - missing && missing < U64_SIZE
    ensures Groups(n) == groups && (0 - n) % U64_SIZE == missing
  {
    RemainderOf64(groups, U64_SIZE - 1 - missing);
    RemainderOf64(0 - groups, missing);
  }

  lemma RemainderOf64(q: int, r: nat)
    requires r < U64_SIZE
    ensures (q * U64_SIZE + r) % U64_SIZE == r && (q * U64_SIZE + r) / U64_SIZE == q
  {}

  /** A number in terms of its groups, their upper and lower part, and what is missing in the last one. */
  lemma SplitGroups(n: nat) returns (upper: nat, lower: nat, missing: nat)
    ensures Groups(n) == upper * U64_SIZE + lower && lower < U64_SIZE && missing < U64_SIZE
    ensures n == upper * U128_SIZE + lower * U64_SIZE - missing
    ensures NegativeWords(n) == Uint128(lower, missing)
    ensures n == 0 ==> upper == 0 && lower == 0 && missing == 0
    ensures n % U64_SIZE == 0 <==> missing == 0
  {
    var q, r := n / U64_SIZE, n % U64_SIZE;
    var groups := if r == 0 then q else q + 1;
    missing := if r == 0 then 0 else U64_SIZE - r;
    assert n == groups * U64_SIZE - missing;
    GroupsAre(n, groups, missing);
    upper, lower := groups / U64_SIZE, groups % U64_SIZE;
    hide Groups;
    assert groups == upper * U64_SIZE + lower;
  }

  /** The words of a negative number, as one number. */
  lemma NegativeValue(n: nat)
    ensures Value(NegativeWords(n)) == (2 * U64_SIZE * Groups(n) - n) % U128_SIZE
  {
    var upper, lower, missing := SplitGroups(n);
    hide NegativeWords, Groups;
    assert 2 * U64_SIZE * Groups(n) - n == upper * U128_SIZE + (lower * U64_SIZE + missing);
    RemainderOf(upper, lower * U64_SIZE + missing);
  }

  lemma RemainderOf(q: int, r: nat)
    requires r < U128_SIZE
    ensures (q * U128_SIZE + r) % U128_SIZE == r
  {}

  /** It is the two's complement of the number if and only if the number of groups is a multiple of 2^63. */
  lemma NegativeIsComplement(n: nat)
    ensures Value(NegativeWords(n)) == (0 - n) % U128_SIZE <==> Groups(n) % I64_LIMIT == 0
  {
    var upper, lower, missing := SplitGroups(n);
    hide NegativeWords, Groups;
    if lower == 0 {
      RemainderOf(-upper, missing);
      assert 0 - n == (-upper) * U128_SIZE + missing;
    } else {
      RemainderOf(-upper - 1, U128_SIZE - lower * U64_SIZE + missing);
      assert 0 - n == (-upper - 1) * U128_SIZE + (U128_SIZE - lower * U64_SIZE + missing);
    }
  }

  /** The sign is simply lost if and only if the number is a multiple of 2^64 that fits. */
  lemma NegativeLosesSign(n: nat)
    ensures Value(NegativeWords(n)) == n <==> n % U64_SIZE == 0 && n < U128_SIZE
  {
    var upper, lower, missing := SplitGroups(n);
    hide NegativeWords, Groups;
  }

  /**
   What an accepted input becomes. Without a minus sign it is the number that the digits stand for. With one it is the
   number that `NegativeValue` gives, which is that of the digits, or its two's complement, for exactly those numbers.
   */
  lemma ParseMeans(input: string, radix: nat)
    requires radix == 10 || radix == 16
    requires Parse(input, radix).Ok?
    ensures AllDigits(Magnitude(input), radix)
    ensures var n, value := NumberIn(Magnitude(input), radix), Value(Parse(input, radix).value);
            if input[0] != '-' then value == n
            else
              && value == (2 * U64_SIZE * Groups(n) - n) % U128_SIZE
              && (value == n <==> n % U64_SIZE == 0 && n < U128_SIZE)
              && (value == (0 - n) % U128_SIZE <==> Groups(n) % I64_LIMIT == 0)
  {
    if input[0] == '-' {
      var n := NumberIn(Magnitude(input), radix);
      NegativeValue(n);
      NegativeLosesSign(n);
      NegativeIsComplement(n);
      hide NegativeWords, Value, Groups;
    }
  }

  /** Minus one is accepted and becomes 2^65 - 1. */
  lemma MinusOneIsAccepted()
    ensures Parse("-1", 10) == Ok(Uint128(1, U64_SIZE - 1))
  {
    assert Magnitude("-1") == "1" && "1"[..0] == "";
    assert NumberIn("1", 10) == 1;
  }
}
