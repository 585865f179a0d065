/** The log file as bytes: what a log looks like on disk, and what replay reads out of any file. */
module Log {
  import opened Common
  import opened Ledger
  import opened Layout

  const MAGIC: u64 := 0x4C41_575F_5F54_454C
  const VERSION: u16 := 1

  function Header(): (bytes: seq<bv8>)
    ensures |bytes| == HEADER_LENGTH
  {
    ToBytes(MAGIC, 8) + ToBytes(VERSION, 2)
  }

  function Records(log: seq<Record>): (bytes: seq<bv8>)
    ensures |bytes| == 54 * |log|
    decreases |log|
  {
    if log == [] then [] else EncodeRecord(log[0]) + Records(log[1..])
  }

  function Image(log: seq<Record>): (bytes: seq<bv8>)
    ensures |bytes| == RecordOffset(|log|)
  {
    Header() + Records(log)
  }

  lemma {:induction false} RecordsAppend(a: seq<Record>, b: seq<Record>)
    ensures Records(a + b) == Records(a) + Records(b)
    decreases |a|
  {
    hide EncodeRecord;
    if a == [] {
      assert a + b == b;
    } else {
      assert (a + b)[1..] == a[1..] + b;
      RecordsAppend(a[1..], b);
    }
  }

  lemma ImageAppend(log: seq<Record>, r: Record)
    ensures Image(log + [r]) == Image(log) + EncodeRecord(r)
  {
    hide EncodeRecord, Header;
    RecordsAppend(log, [r]);
    assert Records([r]) == EncodeRecord(r) + Records([]);
  }

  /** Every prefix of a log has the corresponding prefix of its image. */
  lemma ImagePrefix(log: seq<Record>, n: nat)
    requires n <= |log|
    ensures Image(log[..n]) == Image(log)[..RecordOffset(n)]
  {
    hide EncodeRecord, Header, Records;
    assert log == log[..n] + log[n..];
    RecordsAppend(log[..n], log[n..]);
  }

  // ----- reading -----

  /** Why reading records stops. */
  datatype Stop = AtEnd | ShortRead | BadChecksum | BadType

  datatype Scanned = Scanned(records: seq<Record>, stop: Stop)

  /** The records that replay accepts from the bytes after the header, and why it stops. */
  function Scan(data: seq<bv8>): (s: Scanned)
    ensures 54 * |s.records| <= |data|
    decreases |data|
  {
    if data == [] then Scanned([], AtEnd)
    else if |data| < RECORD_LENGTH then Scanned([], ShortRead)
    else if !ChecksumOk(data[..RECORD_LENGTH]) then Scanned([], BadChecksum)
    else
      match DecodeRecord(data[..RECORD_LENGTH])
      case None => Scanned([], BadType)
      case Some(r) =>
        var rest := Scan(data[RECORD_LENGTH..]);
        Scanned([r] + rest.records, rest.stop)
  }

  /** Reading what was written gives the log back and goes on with whatever follows it. */
  lemma {:induction false} ScanImage(log: seq<Record>, tail: seq<bv8>)
    ensures Scan(Records(log) + tail) == Scanned(log + Scan(tail).records, Scan(tail).stop)
    decreases |log|
  {
    hide EncodeRecord, ChecksumOk, DecodeRecord;
    if log == [] {
      assert Records(log) + tail == tail;
    } else {
      var data := Records(log) + tail;
      assert data[..RECORD_LENGTH] == EncodeRecord(log[0]);
      assert data[RECORD_LENGTH..] == Records(log[1..]) + tail;
      RecordRoundTrip(log[0]);
      ScanImage(log[1..], tail);
    }
  }

  /** Resuming the scan after `k` accepted records. */
  lemma {:induction false} ScanFrom(data: seq<bv8>, k: nat)
    requires k <= |Scan(data).records|
    ensures 54 * k <= |data|
    ensures Scan(data[54 * k..]) == Scanned(Scan(data).records[k..], Scan(data).stop)
    decreases k
  {
    hide ChecksumOk, DecodeRecord;
    if k == 0 {
      assert data[0..] == data;
    } else {
      var rest := data[RECORD_LENGTH..];
      ScanFrom(rest, k - 1);
      assert rest[54 * (k - 1)..] == data[54 * k..];
    }
  }
}
