/** What the record checksum detects: any burst of at most 32 bits anywhere in a stored record. */
module Damage {
  import opened Crc32cSpec
  import opened Layout

  lemma WordOfFour(bytes: seq<bv8>)
    requires |bytes| == 4
    ensures Word(AllBits(bytes)) == ReadChecksum(bytes)
  {
    ReadChecksumByBytes(bytes);
    assert Word([]) == 0;
    hide Word, Sum, Widen, ShiftUp, Bits, ReadChecksum;
    assert bytes[1..][0] == bytes[1] && bytes[2..][0] == bytes[2] && bytes[3..][0] == bytes[3];
    assert bytes[1..][1..] == bytes[2..] && bytes[2..][1..] == bytes[3..] && bytes[3..][1..] == [];
    WordOfByteAnd(bytes[0], AllBits(bytes[1..]));
    WordOfByteAnd(bytes[1], AllBits(bytes[2..]));
    WordOfByteAnd(bytes[2], AllBits(bytes[3..]));
    WordOfByteAnd(bytes[3], []);
    assert AllBits(bytes[3..]) == Bits(bytes[3]) + [];
  }

  lemma ReadChecksumByBytes(bytes: seq<bv8>)
    requires |bytes| == 4
    ensures ReadChecksum(bytes) ==
            Sum(ShiftUp(Sum(ShiftUp(Sum(ShiftUp(Sum(ShiftUp(0), Widen(bytes[3]))), Widen(bytes[2]))), Widen(bytes[1]))), Widen(bytes[0]))
  {}

  /** What a good record leaves in the register, checksum included. */
  function Residue(): bv32 {
    Feed(ALL_ONES, Zeros(32))
  }

  /** A stored record passes its check exactly when all of it, checksum included, leaves the residue. */
  lemma ResidueCheck(bytes: seq<bv8>)
    requires |bytes| == RECORD_LENGTH
    ensures ChecksumOk(bytes) <==> Feed(ALL_ONES, AllBits(bytes)) == Residue()
  {
    var body, stored := bytes[..ENTRY_LENGTH], bytes[ENTRY_LENGTH..];
    assert bytes == body + stored;
    AllBitsAppend(body, stored);
    FeedAppend(ALL_ONES, AllBits(body), AllBits(stored));
    var r := Feed(ALL_ONES, AllBits(body));
    FeedIsAdd(r, AllBits(stored));
    WordOfFour(stored);
    var s := ReadChecksum(stored);
    InvertedSum(r, s);
    hide Feed, AllBits, Sum, Word, ReadChecksum, Zeros;
    if Feed(Sum(r, s), Zeros(32)) == Residue() {
      FeedIsInjective(Sum(r, s), ALL_ONES, Zeros(32));
    }
  }

  lemma InvertedSum(r: bv32, s: bv32)
    ensures Sum(r, ALL_ONES) == s <==> Sum(r, s) == ALL_ONES
  {
    SumTwice(ALL_ONES, r);
    SumTwice(s, r);
    hide Sum;
    SumCommutes(r, ALL_ONES);
    SumCommutes(r, s);
  }

  /** A record damaged by a burst of at most 32 bits, in its body, its checksum or across both, fails its check. */
  lemma BurstIsDetected(good: seq<bv8>, bad: seq<bv8>)
    requires |good| == RECORD_LENGTH && |bad| == RECORD_LENGTH
    requires ChecksumOk(good)
    requires BurstApart(AllBits(good), AllBits(bad))
    ensures !ChecksumOk(bad)
  {
    hide ChecksumOk, Feed, AllBits, Residue;
    ResidueCheck(good);
    ResidueCheck(bad);
    BurstChangesRegister(ALL_ONES, AllBits(good), AllBits(bad));
  }

  /** The two messages differ, and only inside one window of four consecutive bytes. */
  ghost predicate ByteBurstApart(m: seq<bv8>, n: seq<bv8>, from: nat) {
    && |m| == |n| && m != n
    && forall i | 0 <= i < |m| && m[i] != n[i] :: from <= i < from + 4
  }

  lemma {:induction false} AllBitsAt(bytes: seq<bv8>, i: nat, k: nat)
    requires i < |bytes| && k < 8
    ensures AllBits(bytes)[8 * i + k] == Bits(bytes[i])[k]
  {
    hide Bits;
    if i > 0 {
      AllBitsAt(bytes[1..], i - 1, k);
    }
  }

  lemma BitsAreInjective(a: bv8, b: bv8)
    requires Bits(a) == Bits(b)
    ensures a == b
  {
    hide Bits, Widen;
    WordOfByte(a);
    WordOfByte(b);
    WidenIsInjective(a, b);
  }

  lemma WidenIsInjective(a: bv8, b: bv8)
    requires Widen(a) == Widen(b)
    ensures a == b
  {}

  lemma ByteBurstIsBurst(m: seq<bv8>, n: seq<bv8>, from: nat)
    requires ByteBurstApart(m, n, from)
    ensures BurstApart(AllBits(m), AllBits(n))
  {
    hide AllBits, Bits;
    var i :| 0 <= i < |m| && m[i] != n[i];
    if Bits(m[i]) == Bits(n[i]) {
      BitsAreInjective(m[i], n[i]);
    }
    var k :| 0 <= k < 8 && Bits(m[i])[k] != Bits(n[i])[k];
    AllBitsAt(m, i, k);
    AllBitsAt(n, i, k);
    forall j | 0 <= j < |AllBits(m)| && AllBits(m)[j] != AllBits(n)[j]
      ensures 8 * from <= j < 8 * from + 32
    {
      AllBitsAt(m, j / 8, j % 8);
      AllBitsAt(n, j / 8, j % 8);
    }
    assert BurstWindow(AllBits(m), AllBits(n), 8 * from);
  }

  /** Two messages of equal length that differ inside four consecutive bytes only have different checksums. */
  lemma ByteBurstChangesCrc(m: seq<bv8>, n: seq<bv8>, from: nat)
    requires ByteBurstApart(m, n, from)
    ensures Crc(m) != Crc(n)
  {
    ByteBurstIsBurst(m, n, from);
    hide Feed, AllBits;
    BurstChangesRegister(ALL_ONES, AllBits(m), AllBits(n));
    if Crc(m) == Crc(n) {
      SumTwice(Feed(ALL_ONES, AllBits(m)), ALL_ONES);
      SumTwice(Feed(ALL_ONES, AllBits(n)), ALL_ONES);
    }
  }
}
