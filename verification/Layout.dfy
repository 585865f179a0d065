/** The packed little-endian record format of the log file. */
module Layout {
  import opened Common
  import opened Ledger
  import opened Crc32cSpec
  import opened Bytes

  const HEADER_LENGTH: nat := 10
  const ENTRY_LENGTH: nat := 50
  const RECORD_LENGTH: nat := 54

  /** Where the record numbered `k` starts in the file. */
  function RecordOffset(k: nat): nat {
    10 + 54 * k
  }

  const TYPE_ADD_ACCOUNT: bv8 := 1
  const TYPE_MAKE_TRANSFER: bv8 := 2
  const TYPE_UPDATE_ACCOUNT: bv8 := 3

  // ----- integers -----

  /** 256 to the power `size`. */
  function Range(size: nat): (r: nat)
    ensures r > 0
  {
    if size == 0 then 1 else 256 * Range(size - 1)
  }

  function ToBytes(n: nat, size: nat): (bytes: seq<bv8>)
    ensures |bytes| == size
  {
    if size == 0 then [] else [(n % 256) as bv8] + ToBytes(n / 256, size - 1)
  }

  /** The number without its lowest `i` bytes. */
  function HighPart(n: nat, i: nat): nat {
    if i == 0 then n else HighPart(n, i - 1) / 256
  }

  /** Byte `i` of a number in memory, on a little-endian host. */
  function ByteAt(n: nat, i: nat): u8 {
    HighPart(n, i) % 256
  }

  lemma {:induction false} HighPartOfQuotient(n: nat, i: nat)
    ensures HighPart(n, i + 1) == HighPart(n / 256, i)
  {
    if i > 0 {
      HighPartOfQuotient(n, i - 1);
    }
  }

  function FromBytes(bytes: seq<bv8>): nat {
    if bytes == [] then 0 else bytes[0] as int + 256 * FromBytes(bytes[1..])
  }

  lemma {:induction false} BytesRoundTrip(n: nat, size: nat)
    requires n < Range(size)
    ensures FromBytes(ToBytes(n, size)) == n
  {
    if size > 0 {
      ByteRoundTrip(n % 256);
      BytesRoundTrip(n / 256, size - 1);
      assert ToBytes(n, size)[1..] == ToBytes(n / 256, size - 1);
    }
  }

  lemma {:induction false} FromBytesInRange(bytes: seq<bv8>)
    ensures FromBytes(bytes) < Range(|bytes|)
  {
    if bytes != [] {
      FromBytesInRange(bytes[1..]);
    }
  }

  /** Strings of bytes of one length that read as the same number are the same string. */
  lemma {:induction false} FromBytesIsInjective(a: seq<bv8>, b: seq<bv8>)
    requires |a| == |b| && FromBytes(a) == FromBytes(b)
    ensures a == b
    decreases |a|
  {
    if a != [] {
      FirstByte(a[0], FromBytes(a[1..]), b[0], FromBytes(b[1..]));
      FromBytesIsInjective(a[1..], b[1..]);
      assert a == [a[0]] + a[1..] && b == [b[0]] + b[1..];
    }
  }

  lemma FirstByte(x: bv8, m: nat, y: bv8, n: nat)
    requires x as int + 256 * m == y as int + 256 * n
    ensures x == y && m == n
  {
    ByteIsSmall(x);
    ByteIsSmall(y);
    assert x as int == y as int;
    assert (x as int) as bv8 == (y as int) as bv8;
  }

  lemma ByteIsSmall(x: bv8)
    ensures 0 <= x as int < 256 && (x as int) as bv8 == x
  {}

  lemma Ranges()
    ensures Range(1) == U8_SIZE && Range(2) == U16_SIZE && Range(8) == U64_SIZE && Range(16) == U128_SIZE
  {
    assert Range(2) == 256 * Range(1);
    assert Range(4) == 0x1_0000_0000;
    assert Range(8) == 256 * 256 * 256 * 256 * Range(4);
    assert Range(12) == 256 * 256 * 256 * 256 * Range(8);
    assert Range(16) == 256 * 256 * 256 * 256 * Range(12);
  }

  // Two's complement of a 64-bit timestamp.
  function FromSigned(t: i64): u64 {
    if t < 0 then t + U64_SIZE else t
  }

  function ToSigned(n: u64): i64 {
    if n >= I64_LIMIT then n - U64_SIZE else n
  }

  // ----- log entries -----

  function EncodeOperation(op: Operation): (bytes: seq<bv8>)
    ensures |bytes| == 33
  {
    match op
    case AddAccount(credits, debits, flags) => ToBytes(credits, 16) + ToBytes(debits, 16) + ToBytes(flags, 1)
    case MakeTransfer(fromId, toId, amount) => ToBytes(fromId, 8) + ToBytes(toId, 8) + ToBytes(amount, 16) + ToBytes(0, 1)
    case UpdateAccount(id, flags) => ToBytes(id, 8) + ToBytes(flags, 1) + ToBytes(0, 24)
  }

  function TypeOf(op: Operation): bv8 {
    match op
    case AddAccount(_, _, _) => TYPE_ADD_ACCOUNT
    case MakeTransfer(_, _, _) => TYPE_MAKE_TRANSFER
    case UpdateAccount(_, _) => TYPE_UPDATE_ACCOUNT
  }

  /** The bytes of an entry: id, timestamp, type, then the zero-padded payload of that type. */
  function EncodeEntry(r: Record): (bytes: seq<bv8>)
    ensures |bytes| == ENTRY_LENGTH
  {
    ToBytes(r.id, 8) + ToBytes(FromSigned(r.timestamp), 8) + [TypeOf(r.operation)] + EncodeOperation(r.operation)
  }

  function ReadU8(bytes: seq<bv8>, at: nat): u8
    requires at + 1 <= |bytes|
  {
    FromBytesInRange(bytes[at..at + 1]);
    Ranges();
    FromBytes(bytes[at..at + 1])
  }

  function ReadU64(bytes: seq<bv8>, at: nat): u64
    requires at + 8 <= |bytes|
  {
    FromBytesInRange(bytes[at..at + 8]);
    Ranges();
    FromBytes(bytes[at..at + 8])
  }

  function ReadU128(bytes: seq<bv8>, at: nat): u128
    requires at + 16 <= |bytes|
  {
    FromBytesInRange(bytes[at..at + 16]);
    Ranges();
    FromBytes(bytes[at..at + 16])
  }

  function DecodeOperation(kind: bv8, data: seq<bv8>): Option<Operation>
    requires |data| == 33
  {
    if kind == TYPE_ADD_ACCOUNT then Some(AddAccount(ReadU128(data, 0), ReadU128(data, 16), ReadU8(data, 32)))
    else if kind == TYPE_MAKE_TRANSFER then Some(MakeTransfer(ReadU64(data, 0), ReadU64(data, 8), ReadU128(data, 16)))
    else if kind == TYPE_UPDATE_ACCOUNT then Some(UpdateAccount(ReadU64(data, 0), ReadU8(data, 8)))
    else None
  }

  /** Reads an entry back; None when its type byte is unknown. */
  function DecodeEntry(bytes: seq<bv8>): Option<Record>
    requires |bytes| == ENTRY_LENGTH
  {
    match DecodeOperation(bytes[16], bytes[17..])
    case None => None
    case Some(op) => Some(Record(ReadU64(bytes, 0), ToSigned(ReadU64(bytes, 8)), op))
  }

  lemma OperationRoundTrip(op: Operation)
    ensures DecodeOperation(TypeOf(op), EncodeOperation(op)) == Some(op)
  {
    Ranges();
    var data := EncodeOperation(op);
    hide ToBytes, FromBytes;
    match op
    case AddAccount(credits, debits, flags) =>
      assert data[0..16] == ToBytes(credits, 16) && data[16..32] == ToBytes(debits, 16) && data[32..33] == ToBytes(flags, 1);
      BytesRoundTrip(credits, 16);
      BytesRoundTrip(debits, 16);
      BytesRoundTrip(flags, 1);
    case MakeTransfer(fromId, toId, amount) =>
      assert data[0..8] == ToBytes(fromId, 8) && data[8..16] == ToBytes(toId, 8) && data[16..32] == ToBytes(amount, 16);
      BytesRoundTrip(fromId, 8);
      BytesRoundTrip(toId, 8);
      BytesRoundTrip(amount, 16);
    case UpdateAccount(id, flags) =>
      assert data[0..8] == ToBytes(id, 8) && data[8..9] == ToBytes(flags, 1);
      BytesRoundTrip(id, 8);
      BytesRoundTrip(flags, 1);
  }

  /** Every record is read back from its bytes, whatever its type and field values. */
  lemma EntryRoundTrip(r: Record)
    ensures DecodeEntry(EncodeEntry(r)) == Some(r)
  {
    var bytes := EncodeEntry(r);
    OperationRoundTrip(r.operation);
    hide ToBytes, FromBytes, EncodeOperation, DecodeOperation;
    assert bytes[0..8] == ToBytes(r.id, 8);
    assert bytes[8..16] == ToBytes(FromSigned(r.timestamp), 8);
    assert bytes[16] == TypeOf(r.operation);
    assert bytes[17..] == EncodeOperation(r.operation);
    Ranges();
    BytesRoundTrip(r.id, 8);
    BytesRoundTrip(FromSigned(r.timestamp), 8);
  }

  /** Integers are little-endian: byte `i` of the text is byte `i` of the number. */
  lemma {:induction false} LittleEndian(n: nat, size: nat, i: nat)
    requires i < size
    ensures ToBytes(n, size)[i] as int == ByteAt(n, i)
    decreases size
  {
    if i == 0 {
      ByteRoundTrip(n % 256);
    } else {
      LittleEndian(n / 256, size - 1, i - 1);
      HighPartOfQuotient(n, i - 1);
      assert ToBytes(n, size)[i] == ToBytes(n / 256, size - 1)[i - 1];
    }
  }

  /** Where each field of a stored entry is, after the packed structures of the log. */
  lemma FieldsAt(r: Record)
    ensures var bytes := EncodeEntry(r);
            && bytes[0..8] == ToBytes(r.id, 8) && bytes[8..16] == ToBytes(FromSigned(r.timestamp), 8)
            && match r.operation
               case AddAccount(credits, debits, flags) =>
                 && bytes[16] == 1 && bytes[17..33] == ToBytes(credits, 16) && bytes[33..49] == ToBytes(debits, 16)
                 && bytes[49..50] == ToBytes(flags, 1)
               case MakeTransfer(fromId, toId, amount) =>
                 && bytes[16] == 2 && bytes[17..25] == ToBytes(fromId, 8) && bytes[25..33] == ToBytes(toId, 8)
                 && bytes[33..49] == ToBytes(amount, 16) && bytes[49..50] == ToBytes(0, 1)
               case UpdateAccount(id, flags) =>
                 && bytes[16] == 3 && bytes[17..25] == ToBytes(id, 8) && bytes[25..26] == ToBytes(flags, 1)
                 && bytes[26..50] == ToBytes(0, 24)
  {
    hide ToBytes, FromSigned;
    var bytes, payload := EncodeEntry(r), EncodeOperation(r.operation);
    assert bytes[17..] == payload;
    match r.operation
    case AddAccount(_, _, _) =>
      assert bytes[17..33] == payload[0..16] && bytes[33..49] == payload[16..32] && bytes[49..50] == payload[32..33];
    case MakeTransfer(_, _, _) =>
      assert bytes[17..25] == payload[0..8] && bytes[25..33] == payload[8..16];
      assert bytes[33..49] == payload[16..32] && bytes[49..50] == payload[32..33];
    case UpdateAccount(_, _) =>
      assert bytes[17..25] == payload[0..8] && bytes[25..26] == payload[8..9] && bytes[26..50] == payload[9..33];
  }

  /** A negative time is stored as its two's complement over 64 bits. */
  lemma SignedIsComplement(t: i64)
    ensures FromSigned(t) == t % U64_SIZE && ToSigned(FromSigned(t)) == t
  {}

  // ----- entries with their checksum -----

  function ChecksumBytes(crc: bv32): (bytes: seq<bv8>)
    ensures |bytes| == 4
  {
    [(crc & 0xFF) as bv8, ((crc >> 8) & 0xFF) as bv8, ((crc >> 16) & 0xFF) as bv8, ((crc >> 24) & 0xFF) as bv8]
  }

  function ReadChecksum(bytes: seq<bv8>): bv32
    requires |bytes| == 4
  {
    (bytes[0] as bv32) ^ ((bytes[1] as bv32) << 8) ^ ((bytes[2] as bv32) << 16) ^ ((bytes[3] as bv32) << 24)
  }

  lemma ChecksumRoundTrip(crc: bv32)
    ensures ReadChecksum(ChecksumBytes(crc)) == crc
  {}

  /** What one append writes. */
  function EncodeRecord(r: Record): (bytes: seq<bv8>)
    ensures |bytes| == RECORD_LENGTH
  {
    EncodeEntry(r) + ChecksumBytes(Crc(EncodeEntry(r)))
  }

  predicate ChecksumOk(bytes: seq<bv8>)
    requires |bytes| == RECORD_LENGTH
  {
    Crc(bytes[..ENTRY_LENGTH]) == ReadChecksum(bytes[ENTRY_LENGTH..])
  }

  function DecodeRecord(bytes: seq<bv8>): Option<Record>
    requires |bytes| == RECORD_LENGTH
  {
    DecodeEntry(bytes[..ENTRY_LENGTH])
  }

  lemma RecordRoundTrip(r: Record)
    ensures ChecksumOk(EncodeRecord(r)) && DecodeRecord(EncodeRecord(r)) == Some(r)
  {
    hide Crc, EncodeEntry, DecodeEntry, ChecksumBytes, ReadChecksum;
    var bytes := EncodeRecord(r);
    assert bytes[..ENTRY_LENGTH] == EncodeEntry(r);
    assert bytes[ENTRY_LENGTH..] == ChecksumBytes(Crc(EncodeEntry(r)));
    ChecksumRoundTrip(Crc(EncodeEntry(r)));
    EntryRoundTrip(r);
  }
}
