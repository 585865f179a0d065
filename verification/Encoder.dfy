/** The server's response encoder: literal text and hexadecimal integers written into a bounded buffer. */
module Encoder {
  import opened Common
  import opened Errors
  import opened Protocol
  import opened Layout

  // ----- hexadecimal text -----

  function HexDigit(d: nat): char
    requires d < 16
  {
    "0123456789ABCDEF"[d]
  }

  function Pair(b: u8): (s: string)
    ensures |s| == 2
  {
    [HexDigit(b / 16), HexDigit(b % 16)]
  }

  /** Two digits a byte, most significant byte first, without leading zero bytes. */
  function Hex(n: nat): (s: string)
    ensures |s| >= 2
  {
    if n < 256 then Pair(n) else Hex(n / 256) + Pair(n % 256)
  }

  lemma SizesHold()
    ensures forall n: u8 {:trigger HighPart(n, 1)} :: HighPart(n, 1) == 0
    ensures forall n: u16 {:trigger HighPart(n, 2)} :: HighPart(n, 2) == 0
    ensures forall n: u64 {:trigger HighPart(n, 8)} :: HighPart(n, 8) == 0
    ensures forall n: u128 {:trigger HighPart(n, 16)} :: HighPart(n, 16) == 0
  {
    Ranges();
    assert Range(0) == 1;
    hide Range, HighPart;
    forall n: u8 ensures HighPart(n, 1) == 0 { Shrinks(n, 1, 1); }
    forall n: u16 ensures HighPart(n, 2) == 0 { Shrinks(n, 2, 2); }
    forall n: u64 ensures HighPart(n, 8) == 0 { Shrinks(n, 8, 8); }
    forall n: u128 ensures HighPart(n, 16) == 0 { Shrinks(n, 16, 16); }
  }

  lemma {:induction false} Shrinks(n: nat, size: nat, i: nat)
    requires n < Range(size) && i <= size
    ensures HighPart(n, i) < Range(size - i)
  {
    if i > 0 {
      Shrinks(n, size, i - 1);
    }
  }

  /** A number with `k` significant bytes takes `2k` digits. */
  lemma {:induction false} HexLength(n: nat, k: nat)
    requires k > 0 && HighPart(n, k) == 0 && (k == 1 || HighPart(n, k - 1) > 0)
    ensures |Hex(n)| == 2 * k
    decreases k
  {
    if k == 1 {
      assert HighPart(n, 1) == HighPart(n, 0) / 256;
    } else {
      HighPartOfQuotient(n, k - 1);
      HighPartOfQuotient(n, k - 2);
      HighPartIsSmaller(n, 1, k - 1);
      HexLength(n / 256, k - 1);
    }
  }

  lemma {:induction false} HighPartIsSmaller(n: nat, i: nat, j: nat)
    requires i <= j
    ensures HighPart(n, j) <= HighPart(n, i)
    decreases j
  {
    if i < j {
      HighPartIsSmaller(n, i, j - 1);
    }
  }

  // ----- the text of a response -----

  /** The text without its final newline. */
  function Body(r: Response): string {
    match r
    case MagicResponse => "LET"
    case AddAccountResponse(id) => "AID " + Hex(id)
    case GetAccountResponse(credits, debits, flags) => "ACC " + Hex(credits) + " " + Hex(debits) + " " + Hex(flags)
    case CountDatabaseResponse(accounts, entries) => "LEN " + Hex(accounts) + " " + Hex(entries)
    case OkResponse => "OKE"
    case ErrorResponse(error) => "ERR " + Hex(Code(error))
  }

  function Text(r: Response): string {
    Body(r) + "\n"
  }

  lemma {:induction false} HexIsShort(n: nat, size: nat)
    requires n < Range(size) && size > 0
    ensures |Hex(n)| <= 2 * size
    decreases size
  {
    if n >= 256 {
      assert Range(1) == 256;
      HexIsShort(n / 256, size - 1);
    }
  }

  /** No response is longer than the account one: 4 + 32 + 1 + 32 + 1 + 2 + 1. */
  lemma TextIsShort(r: Response)
    ensures 4 <= |Text(r)| <= 73
  {
    Ranges();
    hide Hex, Range;
    match r
    case AddAccountResponse(id) => HexIsShort(id, 8);
    case GetAccountResponse(credits, debits, flags) =>
      HexIsShort(credits, 16);
      HexIsShort(debits, 16);
      HexIsShort(flags, 1);
    case CountDatabaseResponse(accounts, entries) =>
      HexIsShort(accounts, 8);
      HexIsShort(entries, 8);
    case ErrorResponse(error) => HexIsShort(Code(error), 2);
    case _ =>
  }

  // ----- staying inside the buffer -----

  /** A response as the encoder writes it: literal bytes, which are not checked, and integers, which are. */
  datatype Piece = Literal(c: char) | Integer(n: nat)

  function Literals(s: string): (pieces: seq<Piece>)
    ensures |pieces| == |s| && forall i | 0 <= i < |s| :: pieces[i] == Literal(s[i])
  {
    seq(|s|, i requires 0 <= i < |s| => Literal(s[i]))
  }

  function Pieces(r: Response): seq<Piece> {
    match r
    case MagicResponse => Literals("LET\n")
    case AddAccountResponse(id) => Literals("AID ") + [Integer(id), Literal('\n')]
    case GetAccountResponse(credits, debits, flags) =>
      Literals("ACC ")
      + [Integer(credits), Literal(' '), Integer(debits), Literal(' '), Integer(flags), Literal('\n')]
    case CountDatabaseResponse(accounts, entries) =>
      Literals("LEN ") + [Integer(accounts), Literal(' '), Integer(entries), Literal('\n')]
    case OkResponse => Literals("OKE\n")
    case ErrorResponse(error) => Literals("ERR ") + [Integer(Code(error)), Literal('\n')]
  }

  function PieceText(p: Piece): (s: string)
    ensures s != ""
  {
    if p.Literal? then [p.c] else Hex(p.n)
  }

  function TextOf(pieces: seq<Piece>): string
    decreases |pieces|
  {
    if pieces == [] then "" else TextOf(pieces[..|pieces| - 1]) + PieceText(pieces[|pieces| - 1])
  }

  datatype Emission = Done(length: nat) | Refused | Overrun

  /** Writing the pieces in order into a buffer, an unchecked literal past the end being an overrun. */
  function Emit(pieces: seq<Piece>, capacity: nat): Emission
    decreases |pieces|
  {
    if pieces == [] then Done(0)
    else
      var before, last := Emit(pieces[..|pieces| - 1], capacity), pieces[|pieces| - 1];
      if !before.Done? then before
      else if before.length + |PieceText(last)| <= capacity then Done(before.length + |PieceText(last)|)
      else if last.Literal? then Overrun
      else Refused
  }

  /** Whether byte `k` of the text is a literal one. */
  function IsLiteralAt(pieces: seq<Piece>, k: nat): bool
    decreases |pieces|
  {
    pieces != [] &&
      var before, last := pieces[..|pieces| - 1], pieces[|pieces| - 1];
      if k < |TextOf(before)| then IsLiteralAt(before, k) else last.Literal? && k == |TextOf(before)|
  }

  /**
   The encoder overruns its buffer exactly when the first byte that does not fit is a literal one; otherwise it writes
   everything if everything fits, and refuses if not.
   */
  lemma {:induction false} EmitIsExact(pieces: seq<Piece>, capacity: nat)
    ensures Emit(pieces, capacity).Done? <==> |TextOf(pieces)| <= capacity
    ensures Emit(pieces, capacity).Done? ==> Emit(pieces, capacity).length == |TextOf(pieces)|
    ensures Emit(pieces, capacity).Overrun? <==> |TextOf(pieces)| > capacity && IsLiteralAt(pieces, capacity)
    decreases |pieces|
  {
    if pieces != [] {
      EmitIsExact(pieces[..|pieces| - 1], capacity);
    }
  }

  /** The buffer is never overrun. */
  predicate Contained(r: Response, capacity: nat) {
    !Emit(Pieces(r), capacity).Overrun?
  }

  lemma TextStep(pieces: seq<Piece>, k: nat)
    requires k < |pieces|
    ensures TextOf(pieces[..k + 1]) == TextOf(pieces[..k]) + PieceText(pieces[k])
  {
    assert pieces[..k + 1][..k] == pieces[..k];
  }

  lemma {:induction false} OverrunStays(pieces: seq<Piece>, k: nat, capacity: nat)
    requires k <= |pieces| && Emit(pieces[..k], capacity).Overrun?
    ensures Emit(pieces, capacity).Overrun?
    decreases |pieces|
  {
    if k < |pieces| {
      assert pieces[..|pieces| - 1][..k] == pieces[..k];
      OverrunStays(pieces[..|pieces| - 1], k, capacity);
    } else {
      assert pieces[..k] == pieces;
    }
  }

  /** A buffer that is not overrun and has taken everything before a literal has room for the literal. */
  lemma LiteralFits(pieces: seq<Piece>, k: nat, capacity: nat)
    requires k < |pieces| && pieces[k].Literal? && !Emit(pieces, capacity).Overrun?
    requires |TextOf(pieces[..k])| <= capacity
    ensures |TextOf(pieces[..k])| < capacity
  {
    EmitIsExact(pieces[..k], capacity);
    assert pieces[..k + 1][..k] == pieces[..k];
    if |TextOf(pieces[..k])| == capacity {
      OverrunStays(pieces, k + 1, capacity);
    }
  }

  lemma {:induction false} HeadText(head: string, pieces: seq<Piece>)
    requires Literals(head) <= pieces
    ensures TextOf(pieces[..|head|]) == head
    decreases |head|
  {
    if head != "" {
      var k := |head| - 1;
      assert Literals(head[..k]) == Literals(head)[..k];
      HeadText(head[..k], pieces);
      TextStep(pieces, k);
      assert head == head[..k] + [head[k]];
    }
  }

  lemma {:induction false} HeadFits(head: string, pieces: seq<Piece>, capacity: nat)
    requires Literals(head) <= pieces && !Emit(pieces, capacity).Overrun?
    ensures |head| <= capacity
    decreases |head|
  {
    if head != "" {
      var k := |head| - 1;
      assert Literals(head[..k]) == Literals(head)[..k];
      HeadFits(head[..k], pieces, capacity);
      HeadText(head[..k], pieces);
      LiteralFits(pieces, k, capacity);
    }
  }

  lemma IntegerStep(pieces: seq<Piece>, k: nat, n: nat)
    requires k < |pieces| && pieces[k] == Integer(n)
    ensures TextOf(pieces[..k + 1]) == TextOf(pieces[..k]) + Hex(n)
  {
    TextStep(pieces, k);
  }

  lemma LiteralStep(pieces: seq<Piece>, k: nat, c: char, capacity: nat)
    requires k < |pieces| && pieces[k] == Literal(c)
    ensures TextOf(pieces[..k + 1]) == TextOf(pieces[..k]) + [c]
    ensures !Emit(pieces, capacity).Overrun? && |TextOf(pieces[..k])| <= capacity ==> |TextOf(pieces[..k])| < capacity
  {
    TextStep(pieces, k);
    if !Emit(pieces, capacity).Overrun? && |TextOf(pieces[..k])| <= capacity {
      LiteralFits(pieces, k, capacity);
    }
  }

  lemma Whole(pieces: seq<Piece>)
    ensures pieces[..|pieces|] == pieces
  {}

  predicate RoomAfter(n: nat, capacity: nat) {
    n <= capacity ==> n < capacity
  }

  /** A head of four bytes, an integer, and a literal. */
  lemma OneInteger(p: seq<Piece>, head: string, n: nat, c: char, capacity: nat)
    requires |head| == 4 && Literals(head) + [Integer(n), Literal(c)] <= p
    ensures TextOf(p[..6]) == head + Hex(n) + [c]
    ensures !Emit(p, capacity).Overrun? ==> 4 <= capacity && RoomAfter(4 + |Hex(n)|, capacity)
  {
    HeadText(head, p);
    if !Emit(p, capacity).Overrun? {
      HeadFits(head, p, capacity);
    }
    hide TextOf, Emit, Hex;
    IntegerStep(p, 4, n);
    LiteralStep(p, 5, c, capacity);
  }

  /** One more integer and literal. */
  lemma OneMore(p: seq<Piece>, k: nat, n: nat, c: char, capacity: nat)
    requires k + 1 < |p| && p[k] == Integer(n) && p[k + 1] == Literal(c)
    ensures TextOf(p[..k + 2]) == TextOf(p[..k]) + Hex(n) + [c]
    ensures !Emit(p, capacity).Overrun? ==> RoomAfter(|TextOf(p[..k])| + |Hex(n)|, capacity)
  {
    hide TextOf, Emit, Hex;
    IntegerStep(p, k, n);
    LiteralStep(p, k + 1, c, capacity);
  }

  /** Where a contained response has room for a literal byte. */
  predicate Room(r: Response, capacity: nat) {
    && 4 <= capacity
    && match r
       case AddAccountResponse(id) => RoomAfter(4 + |Hex(id)|, capacity)
       case GetAccountResponse(credits, debits, flags) =>
         && RoomAfter(4 + |Hex(credits)|, capacity)
         && RoomAfter(5 + |Hex(credits)| + |Hex(debits)|, capacity)
         && RoomAfter(6 + |Hex(credits)| + |Hex(debits)| + |Hex(flags)|, capacity)
       case CountDatabaseResponse(accounts, entries) =>
         && RoomAfter(4 + |Hex(accounts)|, capacity)
         && RoomAfter(5 + |Hex(accounts)| + |Hex(entries)|, capacity)
       case ErrorResponse(error) => RoomAfter(4 + |Hex(Code(error))|, capacity)
       case _ => true
  }

  lemma AccountPieces(credits: u128, debits: u128, flags: u8, capacity: nat)
    ensures var r := GetAccountResponse(credits, debits, flags);
            TextOf(Pieces(r)) == Text(r) && (Contained(r, capacity) ==> Room(r, capacity))
  {
    var p := Pieces(GetAccountResponse(credits, debits, flags));
    Whole(p);
    hide TextOf, Emit, Hex, RoomAfter;
    OneInteger(p, "ACC ", credits, ' ', capacity);
    OneMore(p, 6, debits, ' ', capacity);
    OneMore(p, 8, flags, '\n', capacity);
  }

  lemma CountPieces(accounts: u64, entries: u64, capacity: nat)
    ensures var r := CountDatabaseResponse(accounts, entries);
            TextOf(Pieces(r)) == Text(r) && (Contained(r, capacity) ==> Room(r, capacity))
  {
    var p := Pieces(CountDatabaseResponse(accounts, entries));
    Whole(p);
    hide TextOf, Emit, Hex, RoomAfter;
    OneInteger(p, "LEN ", accounts, ' ', capacity);
    OneMore(p, 6, entries, '\n', capacity);
  }

  /** The text of a response is the text of its pieces. */
  lemma RoomForLiterals(r: Response, capacity: nat)
    ensures TextOf(Pieces(r)) == Text(r)
    ensures Contained(r, capacity) ==> Room(r, capacity)
  {
    match r {
      case GetAccountResponse(credits, debits, flags) =>
        AccountPieces(credits, debits, flags, capacity);
        return;
      case CountDatabaseResponse(accounts, entries) =>
        CountPieces(accounts, entries, capacity);
        return;
      case _ =>
    }
    var p := Pieces(r);
    Whole(p);
    hide TextOf, Emit, Hex, Code, RoomAfter;
    match r
    case MagicResponse => ShortText("LET\n", p, capacity);
    case OkResponse => ShortText("OKE\n", p, capacity);
    case AddAccountResponse(id) => OneInteger(p, "AID ", id, '\n', capacity);
    case ErrorResponse(error) => OneInteger(p, "ERR ", Code(error), '\n', capacity);
  }

  lemma ShortText(head: string, p: seq<Piece>, capacity: nat)
    requires Literals(head) == p
    ensures TextOf(p) == head
    ensures !Emit(p, capacity).Overrun? ==> |head| <= capacity
  {
    Whole(p);
    HeadText(head, p);
    if !Emit(p, capacity).Overrun? {
      HeadFits(head, p, capacity);
    }
  }

  /**
   For every response and capacity: in bounds exactly when the text fits, or its first byte that does not fit belongs
   to an integer. Whatever the response, 73 bytes are enough.
   */
  lemma ContainedIsExact(r: Response, capacity: nat)
    ensures Contained(r, capacity) <==> |Text(r)| <= capacity || !IsLiteralAt(Pieces(r), capacity)
    ensures capacity >= 73 ==> Contained(r, capacity) && |Text(r)| <= capacity
  {
    RoomForLiterals(r, capacity);
    EmitIsExact(Pieces(r), capacity);
    TextIsShort(r);
  }

  /** An overrun exists: the newline after a literal text is written without a check. */
  lemma ShortBufferIsOverrun()
    ensures !Contained(OkResponse, 3)
  {
    ShortText("OKE\n", Pieces(OkResponse), 3);
  }

  /** One text of each kind, as it goes out. */
  lemma Texts()
    ensures Text(MagicResponse) == "LET\n" && Text(OkResponse) == "OKE\n"
    ensures Text(AddAccountResponse(9)) == "AID 09\n"
    ensures Text(GetAccountResponse(5, 100, 7)) == "ACC 05 64 07\n"
    ensures Text(CountDatabaseResponse(2, 300)) == "LEN 02 012C\n"
    ensures Text(ErrorResponse(GuardFault(CannotSend))) == "ERR 0BBF\n"
  {
    Hexes();
    assert Code(GuardFault(CannotSend)) == 3007;
    hide Hex, Code;
  }

  lemma Hexes()
    ensures Hex(9) == "09" && Hex(5) == "05" && Hex(100) == "64" && Hex(7) == "07" && Hex(2) == "02"
    ensures Hex(300) == "012C" && Hex(3007) == "0BBF"
  {
    assert Hex(300) == Hex(1) + Pair(44) && Hex(3007) == Hex(11) + Pair(191);
  }

  // ----- the encoder -----

  class ResponseEncoder {
    const response: Response
    const buffer: array<char>
    var length: nat

    ghost predicate Valid()
      reads this
    {
      length <= buffer.Length
    }

    ghost function Written(): (text: string)
      requires Valid()
      reads this, buffer
      ensures |text| == length
    {
      buffer[..length]
    }

    constructor (response: Response, buffer: array<char>)
      ensures Valid() && Written() == ""
      ensures this.response == response && this.buffer == buffer
    {
      this.response, this.buffer, length := response, buffer, 0;
    }

    /** A literal byte. Nothing checks the capacity, so the caller must. */
    method Put(c: char)
      requires Valid() && length < buffer.Length
      modifies `length, buffer
      ensures Valid() && length == old(length) + 1
      ensures Written() == old(Written()) + [c]
    {
      buffer[length] := c;
      length := length + 1;
    }

    method PutThree(a: char, b: char, c: char)
      requires Valid() && length + 3 <= buffer.Length
      modifies `length, buffer
      ensures Valid() && length == old(length) + 3
      ensures Written() == old(Written()) + [a, b, c]
    {
      Put(a);
      Put(b);
      Put(c);
    }

    method PutByte(b: u8)
      requires Valid() && length + 2 <= buffer.Length
      modifies `length, buffer
      ensures Valid() && length == old(length) + 2
      ensures Written() == old(Written()) + Pair(b)
    {
      Put(HexDigit(b / 16));
      Put(HexDigit(b % 16));
    }

    /** How many bytes are left when leading zero bytes are skipped; at least one. */
    static method SignificantBytes(value: nat, size: nat) returns (skip: nat)
      requires size > 0 && HighPart(value, size) == 0
      ensures 0 < skip <= size && HighPart(value, skip) == 0 && (skip == 1 || HighPart(value, skip - 1) > 0)
    {
      hide HighPart, ByteAt;
      skip := size;
      while skip > 1 && ByteAt(value, skip - 1) == 0
        invariant 0 < skip <= size && HighPart(value, skip) == 0
      {
        NextByte(value, skip - 1);
        skip := skip - 1;
      }
      NextByte(value, skip - 1);
    }

    /** The integer stored in `size` bytes: its hexadecimal text, or an error when that does not fit. */
    method RunInteger(value: nat, size: nat) returns (error: Error)
      requires Valid() && size > 0 && HighPart(value, size) == 0
      modifies `length, buffer
      ensures Valid()
      ensures error == if old(length) + |Hex(value)| > buffer.Length then NetworkFault(ResponseBufferOverflow) else NoError
      ensures Written() == old(Written()) + if error.Exists() then "" else Hex(value)
    {
      assert HighPart(value, 0) == value;
      hide Hex, ByteAt, HighPart, Pair, Written;
      ghost var before, text := Written(), "";
      assert before + text == before;
      var skip := SignificantBytes(value, size);
      HexLength(value, skip);
      if length + skip * 2 > buffer.Length {
        return NetworkFault(ResponseBufferOverflow);
      }
      var index := skip;
      while index > 0
        invariant 0 <= index <= skip && length + 2 * index <= buffer.Length
        invariant Written() == before + text
        invariant text == if index == skip then "" else Hex(HighPart(value, index))
      {
        index := index - 1;
        HexOfByte(value, index, skip);
        Associates(before, text, Pair(ByteAt(value, index)));
        PutByte(ByteAt(value, index));
        text := text + Pair(ByteAt(value, index));
      }
      return NoError;
    }

    /** The response with an account's amounts and flags. */
    method RunAccount(credits: u128, debits: u128, flags: u8) returns (error: Error)
      requires Valid() && length == 0
      requires Room(GetAccountResponse(credits, debits, flags), buffer.Length)
      modifies `length, buffer
      ensures Valid()
      ensures error == if 6 + |Hex(credits)| + |Hex(debits)| + |Hex(flags)| > buffer.Length
                       then NetworkFault(ResponseBufferOverflow) else NoError
      ensures !error.Exists() ==> Written() == "ACC " + Hex(credits) + " " + Hex(debits) + " " + Hex(flags)
    {
      hide Hex, HighPart, Written;
      SizesHold();
      PutThree('A', 'C', 'C');
      Put(' ');
      assert Written() == "ACC ";
      error := RunInteger(credits, 16);
      if error.Exists() {
        return;
      }
      Put(' ');
      error := RunInteger(debits, 16);
      if error.Exists() {
        return;
      }
      Put(' ');
      error := RunInteger(flags, 1);
      if error.Exists() {
        return;
      }
    }

    /** The response with the two counts. */
    method RunCount(accounts: u64, entries: u64) returns (error: Error)
      requires Valid() && length == 0
      requires Room(CountDatabaseResponse(accounts, entries), buffer.Length)
      modifies `length, buffer
      ensures Valid()
      ensures error == if 5 + |Hex(accounts)| + |Hex(entries)| > buffer.Length
                       then NetworkFault(ResponseBufferOverflow) else NoError
      ensures !error.Exists() ==> Written() == "LEN " + Hex(accounts) + " " + Hex(entries)
    {
      hide Hex, HighPart, Written;
      SizesHold();
      PutThree('L', 'E', 'N');
      Put(' ');
      assert Written() == "LEN ";
      error := RunInteger(accounts, 8);
      if error.Exists() {
        return;
      }
      Put(' ');
      error := RunInteger(entries, 8);
      if error.Exists() {
        return;
      }
    }

    /** The response with one integer. */
    method RunOne(a: char, b: char, c: char, value: nat, size: nat) returns (error: Error)
      requires Valid() && length == 0 && 4 <= buffer.Length
      requires size > 0 && HighPart(value, size) == 0
      modifies `length, buffer
      ensures Valid()
      ensures error == if 4 + |Hex(value)| > buffer.Length then NetworkFault(ResponseBufferOverflow) else NoError
      ensures !error.Exists() ==> Written() == [a, b, c, ' '] + Hex(value)
    {
      hide Hex, HighPart, Written;
      PutThree(a, b, c);
      Put(' ');
      assert Written() == [a, b, c, ' '];
      error := RunInteger(value, size);
    }

    /** Writes everything but the newline. */
    method RunBody() returns (error: Error)
      requires Valid() && length == 0 && Room(response, buffer.Length)
      modifies `length, buffer
      ensures Valid()
      ensures error == if |Body(response)| > buffer.Length then NetworkFault(ResponseBufferOverflow) else NoError
      ensures !error.Exists() ==> Written() == Body(response)
    {
      hide Hex, Code, HighPart, Written, RoomAfter;
      SizesHold();
      error := NoError;
      match response {
        case MagicResponse => PutThree('L', 'E', 'T');
        case AddAccountResponse(id) => error := RunOne('A', 'I', 'D', id, 8);
        case GetAccountResponse(credits, debits, flags) => error := RunAccount(credits, debits, flags);
        case CountDatabaseResponse(accounts, entries) => error := RunCount(accounts, entries);
        case OkResponse => PutThree('O', 'K', 'E');
        case ErrorResponse(e) => error := RunOne('E', 'R', 'R', Code(e), 2);
      }
    }

    /** Writes the whole response. */
    method Run() returns (error: Error)
      requires Valid() && length == 0
      requires Contained(response, buffer.Length)
      modifies `length, buffer
      ensures Valid()
      ensures error == if |Text(response)| > buffer.Length then NetworkFault(ResponseBufferOverflow) else NoError
      ensures !error.Exists() ==> Written() == Text(response)
    {
      RoomForLiterals(response, buffer.Length);
      RoomForNewline(response, buffer.Length);
      hide Body, Contained, Written, Room;
      error := RunBody();
      if error.Exists() {
        return;
      }
      Put('\n');
    }
  }

  lemma RoomForNewline(r: Response, capacity: nat)
    requires Room(r, capacity)
    ensures |Body(r)| <= capacity ==> |Body(r)| < capacity
  {
    hide Hex, Code;
  }

  lemma NextByte(n: nat, i: nat)
    ensures HighPart(n, i) == 256 * HighPart(n, i + 1) + ByteAt(n, i)
  {}

  /** The text of the bytes from `i` upwards is the text of the bytes above it and one more pair. */
  lemma HexOfByte(n: nat, i: nat, k: nat)
    requires i < k && HighPart(n, k) == 0 && (k == 1 || HighPart(n, k - 1) > 0)
    ensures Hex(HighPart(n, i)) == (if i + 1 == k then "" else Hex(HighPart(n, i + 1))) + Pair(ByteAt(n, i))
  {
    NextByte(n, i);
    hide HighPart, ByteAt, Pair;
    if i + 1 < k {
      HighPartIsSmaller(n, i + 1, k - 1);
    }
  }
}
