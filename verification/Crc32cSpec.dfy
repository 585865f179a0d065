/** The CRC32C of section 12.1 of RFC 3720, taken one message bit at a time, and what it detects. */
module Crc32cSpec {
  // The Castagnoli polynomial, bit-reflected. Its top bit is set, so the one-bit step can be undone.
  const POLYNOMIAL: bv32 := 0x82F63B78
  const ALL_ONES: bv32 := 0xFFFF_FFFF

  /** One division step of the reflected register. */
  function BitStep(r: bv32): bv32 {
    if r & 1 == 1 then (r >> 1) ^ POLYNOMIAL else r >> 1
  }

  function Bit(b: bool): bv32 {
    if b then 1 else 0
  }

  /** Shifts one message bit into the register. */
  function FeedBit(r: bv32, b: bool): bv32 {
    BitStep(Sum(r, Bit(b)))
  }

  /** The sum of two registers over GF(2). */
  function Sum(r: bv32, s: bv32): bv32 {
    r ^ s
  }

  /** Shifts a message into the register, one bit after the other. */
  function Feed(r: bv32, bits: seq<bool>): bv32
    decreases |bits|
  {
    if bits == [] then r else Feed(FeedBit(r, bits[0]), bits[1..])
  }

  /** The bits of a byte in transmission order, least significant first. */
  function Bits(b: bv8): (bits: seq<bool>)
    ensures |bits| == 8
  {
    [b & 1 != 0, b & 2 != 0, b & 4 != 0, b & 8 != 0, b & 16 != 0, b & 32 != 0, b & 64 != 0, b & 128 != 0]
  }

  function AllBits(bytes: seq<bv8>): (bits: seq<bool>)
    ensures |bits| == 8 * |bytes|
  {
    if bytes == [] then [] else Bits(bytes[0]) + AllBits(bytes[1..])
  }

  /** The checksum: the register is preset to ones, fed the message, and inverted. */
  function Crc(bytes: seq<bv8>): bv32 {
    Sum(Feed(ALL_ONES, AllBits(bytes)), ALL_ONES)
  }

  /** The number whose binary digits, least significant first, are `bits`. */
  function Word(bits: seq<bool>): bv32
    decreases |bits|
  {
    if bits == [] then 0 else Prepend(bits[0], Word(bits[1..]))
  }

  function Prepend(b: bool, w: bv32): bv32 {
    Sum(Double(w), Bit(b))
  }

  function Double(w: bv32): bv32 {
    w << 1
  }

  // ----- the step is linear and can be undone -----

  lemma XorParity(x: bv32, y: bv32)
    ensures (x ^ y) & 1 == (x & 1) ^ (y & 1)
    ensures (x ^ y) >> 1 == (x >> 1) ^ (y >> 1)
  {}

  lemma XorShuffle(a: bv32, b: bv32, p: bv32)
    ensures (a ^ p) ^ b == (a ^ b) ^ p
    ensures a ^ (b ^ p) == (a ^ b) ^ p
    ensures (a ^ p) ^ (b ^ p) == a ^ b
  {}

  lemma StepIsLinearOddOdd(x: bv32, y: bv32)
    requires x & 1 == 1 && y & 1 == 1
    ensures BitStep(Sum(x, y)) == Sum(BitStep(x), BitStep(y))
  {
    XorParity(x, y);
    XorShuffle(x >> 1, y >> 1, POLYNOMIAL);
  }

  lemma StepIsLinearOddEven(x: bv32, y: bv32)
    requires x & 1 == 1 && y & 1 != 1
    ensures BitStep(Sum(x, y)) == Sum(BitStep(x), BitStep(y))
  {
    assert y & 1 == 0;
    XorParity(x, y);
    XorShuffle(x >> 1, y >> 1, POLYNOMIAL);
  }

  lemma SumCommutes(x: bv32, y: bv32)
    ensures Sum(x, y) == Sum(y, x)
  {}

  lemma StepIsLinearEvenEven(x: bv32, y: bv32)
    requires x & 1 != 1 && y & 1 != 1
    ensures BitStep(Sum(x, y)) == Sum(BitStep(x), BitStep(y))
  {
    assert x & 1 == 0 && y & 1 == 0;
    XorParity(x, y);
  }

  lemma StepIsLinear(x: bv32, y: bv32)
    ensures BitStep(Sum(x, y)) == Sum(BitStep(x), BitStep(y))
  {
    hide BitStep, Sum;
    if x & 1 == 1 && y & 1 == 1 {
      StepIsLinearOddOdd(x, y);
    } else if x & 1 == 1 {
      StepIsLinearOddEven(x, y);
    } else if y & 1 == 1 {
      StepIsLinearOddEven(y, x);
      SumCommutes(x, y);
      SumCommutes(BitStep(x), BitStep(y));
    } else {
      StepIsLinearEvenEven(x, y);
    }
  }

  lemma StepIsInjective(x: bv32, y: bv32)
    requires BitStep(x) == BitStep(y)
    ensures x == y
  {}

  /** A register below 2^31 can only come from its double: no polynomial was added. */
  lemma StepUndo(x: bv32)
    requires BitStep(x) < 0x8000_0000
    ensures x == Double(BitStep(x))
  {}

  // ----- feeding is linear, and a short burst cannot cancel itself -----

  function Xor(a: seq<bool>, b: seq<bool>): (c: seq<bool>)
    requires |a| == |b|
    ensures |c| == |a|
    ensures forall i | 0 <= i < |a| :: c[i] == (a[i] != b[i])
  {
    seq(|a|, i requires 0 <= i < |a| => a[i] != b[i])
  }

  lemma SumAssociates(x: bv32, y: bv32, z: bv32)
    ensures Sum(Sum(x, y), z) == Sum(x, Sum(y, z))
  {}

  lemma SumShuffle(r: bv32, s: bv32, p: bv32, q: bv32)
    ensures Sum(Sum(r, s), Sum(p, q)) == Sum(Sum(r, p), Sum(s, q))
  {
    hide Sum;
    SumAssociates(Sum(r, s), p, q);
    SumAssociates(r, s, p);
    SumCommutes(s, p);
    SumAssociates(r, p, s);
    SumAssociates(Sum(r, p), s, q);
  }

  lemma BitOfXor(a: bool, b: bool)
    ensures Bit(a != b) == Sum(Bit(a), Bit(b))
  {}

  lemma FeedBitIsLinear(r: bv32, s: bv32, a: bool, b: bool)
    ensures FeedBit(Sum(r, s), a != b) == Sum(FeedBit(r, a), FeedBit(s, b))
  {
    hide BitStep, Bit, Sum;
    BitOfXor(a, b);
    SumShuffle(r, s, Bit(a), Bit(b));
    StepIsLinear(Sum(r, Bit(a)), Sum(s, Bit(b)));
  }

  lemma {:induction false} FeedIsLinear(r: bv32, s: bv32, a: seq<bool>, b: seq<bool>)
    requires |a| == |b|
    ensures Feed(Sum(r, s), Xor(a, b)) == Sum(Feed(r, a), Feed(s, b))
    decreases |a|
  {
    hide FeedBit, Sum, Xor;
    if a != [] {
      assert Xor(a, b)[1..] == Xor(a[1..], b[1..]);
      FeedBitIsLinear(r, s, a[0], b[0]);
      FeedIsLinear(FeedBit(r, a[0]), FeedBit(s, b[0]), a[1..], b[1..]);
    }
  }

  lemma {:induction false} FeedAppend(r: bv32, a: seq<bool>, b: seq<bool>)
    ensures Feed(r, a + b) == Feed(Feed(r, a), b)
    decreases |a|
  {
    hide FeedBit;
    if a == [] {
      assert a + b == b;
    } else {
      assert (a + b)[1..] == a[1..] + b;
      FeedAppend(FeedBit(r, a[0]), a[1..], b);
    }
  }

  lemma FeedBitIsInjective(r: bv32, s: bv32, b: bool)
    requires FeedBit(r, b) == FeedBit(s, b)
    ensures r == s
  {
    hide BitStep, Bit;
    StepIsInjective(r ^ Bit(b), s ^ Bit(b));
    assert (r ^ Bit(b)) ^ Bit(b) == r && (s ^ Bit(b)) ^ Bit(b) == s;
  }

  lemma {:induction false} FeedIsInjective(r: bv32, s: bv32, bits: seq<bool>)
    requires Feed(r, bits) == Feed(s, bits)
    ensures r == s
    decreases |bits|
  {
    hide FeedBit;
    if bits != [] {
      FeedIsInjective(FeedBit(r, bits[0]), FeedBit(s, bits[0]), bits[1..]);
      FeedBitIsInjective(r, s, bits[0]);
    }
  }

  ghost predicate Fits(w: bv32, n: nat) {
    n <= 31 && w <= (1 << n) - 1
  }

  lemma PrependFits(b: bool, w: bv32, n: nat)
    requires Fits(w, n) && n <= 30
    ensures Fits(Prepend(b, w), n + 1)
  {}

  lemma {:induction false} WordFits(bits: seq<bool>)
    requires |bits| <= 31
    ensures Fits(Word(bits), |bits|)
    decreases |bits|
  {
    hide Prepend;
    if bits == [] {
      assert Word(bits) == 0;
    } else {
      hide Fits;
      WordFits(bits[1..]);
      PrependFits(bits[0], Word(bits[1..]), |bits| - 1);
    }
  }

  lemma FeedBitUndo(d: bv32, b: bool, w: bv32, n: nat)
    requires FeedBit(d, b) == w && Fits(w, n)
    ensures d == Prepend(b, w)
  {
    FitsMeansSmall(w, n);
    hide BitStep, Fits, Bit, Sum;
    StepUndo(Sum(d, Bit(b)));
    SumTwice(d, Bit(b));
  }

  lemma FitsMeansSmall(w: bv32, n: nat)
    requires Fits(w, n)
    ensures w < 0x8000_0000
  {}

  lemma SumTwice(r: bv32, s: bv32)
    ensures Sum(Sum(r, s), s) == r
  {}

  /** A message of at most 32 bits clears the register only if the register held that message. */
  lemma {:induction false} ShortMessageClears(d: bv32, bits: seq<bool>)
    requires |bits| <= 32
    requires Feed(d, bits) == 0
    ensures d == Word(bits)
    decreases |bits|
  {
    hide FeedBit, Fits, Prepend;
    if bits != [] {
      ShortMessageClears(FeedBit(d, bits[0]), bits[1..]);
      WordFits(bits[1..]);
      FeedBitUndo(d, bits[0], Word(bits[1..]), |bits| - 1);
    }
  }

  lemma PrependZero(b: bool, w: bv32, n: nat)
    requires Fits(w, n) && Prepend(b, w) == 0
    ensures !b && w == 0
  {
    assert Prepend(b, w) & 1 == Bit(b);
  }

  lemma {:induction false} WordIsZero(bits: seq<bool>)
    requires |bits| <= 32 && Word(bits) == 0
    ensures true !in bits
    decreases |bits|
  {
    hide Prepend, Fits;
    if bits != [] {
      WordFits(bits[1..]);
      PrependZero(bits[0], Word(bits[1..]), |bits| - 1);
      WordIsZero(bits[1..]);
      assert bits == [bits[0]] + bits[1..];
    }
  }

  lemma FeedBitOfZero()
    ensures FeedBit(0, false) == 0
  {}

  lemma {:induction false} FeedZeros(bits: seq<bool>)
    requires true !in bits
    ensures Feed(0, bits) == 0
    decreases |bits|
  {
    hide FeedBit;
    if bits != [] {
      assert bits[0] in bits;
      FeedBitOfZero();
      FeedZeros(bits[1..]);
    }
  }

  /** The two messages differ, and only inside one window of at most 32 consecutive bits. */
  ghost predicate BurstApart(m: seq<bool>, n: seq<bool>) {
    && |m| == |n| && m != n
    && exists from: nat :: BurstWindow(m, n, from)
  }

  ghost predicate BurstWindow(m: seq<bool>, n: seq<bool>, from: nat)
    requires |m| == |n|
  {
    forall i | 0 <= i < |m| && m[i] != n[i] :: from <= i < from + 32
  }

  lemma EqualFeedsCancel(r: bv32, m: seq<bool>, n: seq<bool>)
    requires |m| == |n| && Feed(r, m) == Feed(r, n)
    ensures Feed(0, Xor(m, n)) == 0
  {
    hide Feed, Sum, Xor;
    FeedIsLinear(r, r, m, n);
    SumOfEqual(r);
    SumOfEqual(Feed(r, m));
  }

  /** A difference of at most 32 bits among zeros clears the register only if there is none. */
  lemma BurstSurvives(before: seq<bool>, burst: seq<bool>, after: seq<bool>)
    requires true !in before && true !in after && |burst| <= 32
    requires Feed(0, before + (burst + after)) == 0
    ensures true !in burst
  {
    hide Feed, Word;
    FeedAppend(0, before, burst + after);
    FeedAppend(0, burst, after);
    FeedZeros(before);
    FeedZeros(after);
    FeedIsInjective(Feed(0, burst), 0, after);
    ShortMessageClears(0, burst);
    WordIsZero(burst);
  }

  /** Whatever was in the register, a burst of at most 32 bits changes what the message leaves in it. */
  lemma BurstChangesRegister(r: bv32, m: seq<bool>, n: seq<bool>)
    requires BurstApart(m, n)
    ensures Feed(r, m) != Feed(r, n)
  {
    hide Feed, Bits;
    var from: nat :| BurstWindow(m, n, from);
    if Feed(r, m) == Feed(r, n) {
      EqualFeedsCancel(r, m, n);
      DifferenceSurvives(m, n, from);
    }
  }

  lemma SplitBurst(e: seq<bool>, from: nat) returns (before: seq<bool>, burst: seq<bool>, after: seq<bool>)
    requires forall i | 0 <= i < |e| && e[i] :: from <= i < from + 32
    requires exists i | 0 <= i < |e| :: e[i]
    ensures e == before + (burst + after)
    ensures true !in before && true in burst && true !in after && |burst| <= 32
  {
    var i :| 0 <= i < |e| && e[i];
    var to := if from + 32 <= |e| then from + 32 else |e|;
    before, burst, after := e[..from], e[from..to], e[to..];
    assert burst[i - from];
  }

  lemma DifferenceSurvives(m: seq<bool>, n: seq<bool>, from: nat)
    requires |m| == |n| && m != n && BurstWindow(m, n, from)
    ensures Feed(0, Xor(m, n)) != 0
  {
    hide Feed;
    var e := Xor(m, n);
    var i :| 0 <= i < |m| && m[i] != n[i];
    assert e[i];
    if Feed(0, e) == 0 {
      var before, burst, after := SplitBurst(e, from);
      BurstSurvives(before, burst, after);
    }
  }

  lemma SumOfEqual(r: bv32)
    ensures Sum(r, r) == 0
  {}

  // ----- a register equal to the message is cleared by it -----

  function Zeros(n: nat): (z: seq<bool>)
    ensures |z| == n && true !in z
  {
    seq(n, _ => false)
  }

  lemma FeedBitClears(b: bool, w: bv32, n: nat)
    requires Fits(w, n)
    ensures FeedBit(Prepend(b, w), b) == w
  {
    FitsMeansSmall(w, n);
    FeedBitClearsSmall(b, w);
  }

  lemma FeedBitClearsSmall(b: bool, w: bv32)
    requires w < 0x8000_0000
    ensures FeedBit(Prepend(b, w), b) == w
  {
    hide BitStep, Bit, Sum;
    DoubleStepsBack(w);
    SumTwice(w << 1, Bit(b));
  }

  lemma DoubleStepsBack(w: bv32)
    requires w < 0x8000_0000
    ensures BitStep(w << 1) == w
  {}

  lemma {:induction false} MessageClearsItself(bits: seq<bool>)
    requires |bits| <= 32
    ensures Feed(Word(bits), bits) == 0
    decreases |bits|
  {
    hide FeedBit, Fits, Prepend;
    if bits != [] {
      WordFits(bits[1..]);
      FeedBitClears(bits[0], Word(bits[1..]), |bits| - 1);
      MessageClearsItself(bits[1..]);
    }
  }

  lemma SumZero(r: bv32)
    ensures Sum(r, 0) == r
  {}

  /** Up to 32 message bits act as if they were added to the register beforehand. */
  lemma FeedIsAdd(r: bv32, bits: seq<bool>)
    requires |bits| <= 32
    ensures Feed(r, bits) == Feed(Sum(r, Word(bits)), Zeros(|bits|))
  {
    hide Feed, Sum, Word;
    var w := Word(bits);
    var zeros := Zeros(|bits|);
    assert Xor(zeros, bits) == bits;
    FeedIsLinear(Sum(r, w), w, zeros, bits);
    MessageClearsItself(bits);
    SumZero(Feed(Sum(r, w), zeros));
    SumTwice(r, w);
  }

  // ----- bytes -----

  function Widen(b: bv8): bv32 {
    b as bv32
  }

  function ShiftUp(w: bv32): bv32 {
    w << 8
  }

  lemma {:induction false} AllBitsAppend(a: seq<bv8>, b: seq<bv8>)
    ensures AllBits(a + b) == AllBits(a) + AllBits(b)
    decreases |a|
  {
    hide Bits;
    if a == [] {
      assert a + b == b;
    } else {
      assert (a + b)[1..] == a[1..] + b;
      AllBitsAppend(a[1..], b);
    }
  }

  lemma DigitsOfByte(b: bv8)
    ensures Prepend(b & 1 != 0, Prepend(b & 2 != 0, Prepend(b & 4 != 0, Prepend(b & 8 != 0,
              Prepend(b & 16 != 0, Prepend(b & 32 != 0, Prepend(b & 64 != 0, Prepend(b & 128 != 0, 0)))))))) == Widen(b)
  {}

  lemma WordAt(bits: seq<bool>, k: nat)
    requires k < |bits|
    ensures Word(bits[k..]) == Prepend(bits[k], Word(bits[k + 1..]))
  {
    hide Prepend;
    assert bits[k..][1..] == bits[k + 1..];
  }

  lemma WordOfEight(bits: seq<bool>)
    requires |bits| >= 8
    ensures Word(bits) == Prepend(bits[0], Prepend(bits[1], Prepend(bits[2], Prepend(bits[3],
                            Prepend(bits[4], Prepend(bits[5], Prepend(bits[6], Prepend(bits[7], Word(bits[8..])))))))))
  {
    hide Prepend, Word;
    WordAt(bits, 0); WordAt(bits, 1); WordAt(bits, 2); WordAt(bits, 3);
    WordAt(bits, 4); WordAt(bits, 5); WordAt(bits, 6); WordAt(bits, 7);
    assert bits[0..] == bits;
  }

  lemma WordOfByte(b: bv8)
    ensures Word(Bits(b)) == Widen(b)
  {
    assert Bits(b)[8..] == [] && Word([]) == 0;
    hide Prepend, Word;
    WordOfEight(Bits(b));
    DigitsOfByte(b);
  }

  /** The number of a byte followed by the bits of a 24-bit number. */
  lemma WordOfByteAnd(b: bv8, rest: seq<bool>)
    ensures Word(Bits(b) + rest) == Sum(ShiftUp(Word(rest)), Widen(b))
  {
    var bits := Bits(b) + rest;
    assert bits[0..] == bits && bits[8..] == rest;
    DigitsOfByteAnd(b, Word(rest));
    hide Prepend, Word, Sum, Widen, ShiftUp;
    WordOfEight(bits);
  }

  lemma DigitsOfByteAnd(b: bv8, w: bv32)
    ensures Prepend(b & 1 != 0, Prepend(b & 2 != 0, Prepend(b & 4 != 0, Prepend(b & 8 != 0,
              Prepend(b & 16 != 0, Prepend(b & 32 != 0, Prepend(b & 64 != 0, Prepend(b & 128 != 0, w))))))))
            == Sum(ShiftUp(w), Widen(b))
  {
    SumZero(w);
    DoubleEight(w);
    DigitsOfByte(b);
    hide Prepend, Sum, Double, Widen, ShiftUp;
    PrependToSum(b & 128 != 0, w, 0);
    var u, v := Double(w), Prepend(b & 128 != 0, 0);
    PrependToSum(b & 64 != 0, u, v); u, v := Double(u), Prepend(b & 64 != 0, v);
    PrependToSum(b & 32 != 0, u, v); u, v := Double(u), Prepend(b & 32 != 0, v);
    PrependToSum(b & 16 != 0, u, v); u, v := Double(u), Prepend(b & 16 != 0, v);
    PrependToSum(b & 8 != 0, u, v); u, v := Double(u), Prepend(b & 8 != 0, v);
    PrependToSum(b & 4 != 0, u, v); u, v := Double(u), Prepend(b & 4 != 0, v);
    PrependToSum(b & 2 != 0, u, v); u, v := Double(u), Prepend(b & 2 != 0, v);
    PrependToSum(b & 1 != 0, u, v);
  }

  lemma DoubleEight(w: bv32)
    ensures Double(Double(Double(Double(Double(Double(Double(Double(w)))))))) == ShiftUp(w)
  {}

  lemma PrependToSum(b: bool, u: bv32, v: bv32)
    ensures Prepend(b, Sum(u, v)) == Sum(Double(u), Prepend(b, v))
  {
    DoubleOfSum(u, v);
    hide Sum, Double;
    SumAssociates(Double(u), Double(v), Bit(b));
  }

  lemma DoubleOfSum(u: bv32, v: bv32)
    ensures Double(Sum(u, v)) == Sum(Double(u), Double(v))
  {}
}
