/** The one fact about bytes as bit vectors and as numbers that the storage format rests on. */
module Bytes {
  lemma ByteRoundTrip(n: int)
    requires 0 <= n < 256
    ensures (n as bv8) as int == n
  {
    if n < 128 {
      LowByteRoundTrip(n);
    } else {
      HighByteRoundTrip(n);
    }
  }

  lemma LowByteRoundTrip(n: int)
    requires 0 <= n < 128
    ensures (n as bv8) as int == n
  {
    if n < 16 {
    } else if n < 32 {
    } else if n < 48 {
    } else if n < 64 {
    } else if n < 80 {
    } else if n < 96 {
    } else if n < 112 {
    } else {
    }
  }

  lemma HighByteRoundTrip(n: int)
    requires 128 <= n < 256
    ensures (n as bv8) as int == n
  {
    if n < 144 {
    } else if n < 160 {
    } else if n < 176 {
    } else if n < 192 {
    } else if n < 208 {
    } else if n < 224 {
    } else if n < 240 {
    } else {
    }
  }
}

/** Machine integer ranges and the two generic result types used throughout. */
module Common {
  const U8_SIZE: int := 0x100
  const U16_SIZE: int := 0x1_0000
  const U64_SIZE: int := 0x1_0000_0000_0000_0000
  const U128_SIZE: int := 0x1_0000_0000_0000_0000_0000_0000_0000_0000
  const I64_LIMIT: int := 0x8000_0000_0000_0000

  type u8 = n: int | 0 <= n < U8_SIZE
  type u16 = n: int | 0 <= n < U16_SIZE
  type u64 = n: int | 0 <= n < U64_SIZE
  type u128 = n: int | 0 <= n < U128_SIZE
  type i64 = n: int | -I64_LIMIT <= n < I64_LIMIT

  const U64_MAX: u64 := U64_SIZE - 1
  const U128_MAX: u128 := U128_SIZE - 1

  datatype Option<+T> = None | Some(value: T)

  datatype Result<+T, +E> = Ok(value: T) | Err(error: E)

  lemma Associates<T>(a: seq<T>, b: seq<T>, c: seq<T>)
    ensures a + b + c == a + (b + c)
  {}
}
