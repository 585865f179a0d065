/** The driver's requests and the lines it sends for them. */
module Requests {
  import opened Common
  import opened Numbers
  import opened Uint128
  import Protocol

  /** A request as the driver holds it, its amounts in two words each. */
  datatype Command =
    | Magic
    | AddAccount(walId: u64, credits: Uint128, debits: Uint128, flags: u8)
    | MakeTransfer(walId: u64, fromId: u64, toId: u64, amount: Uint128)
    | GetAccount(accountId: u64)
    | CountDatabase
    | UpdateAccount(walId: u64, accountId: u64, flags: u8)
    | Close

  /** The request the server is meant to see. */
  function Meaning(c: Command): Protocol.Request {
    match c
    case Magic => Protocol.MagicRequest
    case AddAccount(walId, credits, debits, flags) =>
      Protocol.AddAccountRequest(walId, Value(credits), Value(debits), flags)
    case MakeTransfer(walId, fromId, toId, amount) => Protocol.MakeTransferRequest(walId, fromId, toId, Value(amount))
    case GetAccount(accountId) => Protocol.GetAccountRequest(accountId)
    case CountDatabase => Protocol.CountDatabaseRequest
    case UpdateAccount(walId, accountId, flags) => Protocol.UpdateAccountRequest(walId, accountId, flags)
    case Close => Protocol.CloseRequest
  }

  predicate IsWalRequest(c: Command) {
    c.AddAccount? || c.MakeTransfer? || c.UpdateAccount?
  }

  /** Stamps the sequence number; the other fields stay. */
  function SetId(c: Command, id: u64): (stamped: Command)
    requires IsWalRequest(c)
    ensures IsWalRequest(stamped) && stamped.walId == id && stamped.(walId := c.walId) == c
  {
    c.(walId := id)
  }

  function Amount(u: Uint128): string {
    Decimal(Value(u))
  }

  /** The line without its newline. */
  function Body(c: Command): string {
    match c
    case Magic => ";"
    case AddAccount(walId, credits, debits, flags) =>
      "+" + Decimal(walId) + " " + Amount(credits) + " " + Amount(debits) + " " + Decimal(flags)
    case MakeTransfer(walId, fromId, toId, amount) =>
      "%" + Decimal(walId) + " " + Decimal(fromId) + " " + Decimal(toId) + " " + Amount(amount)
    case GetAccount(accountId) => "?" + Decimal(accountId)
    case CountDatabase => "#"
    case UpdateAccount(walId, accountId, flags) =>
      "=" + Decimal(walId) + " " + Decimal(accountId) + " " + Decimal(flags)
    case Close => "."
  }

  function Encode(c: Command): string {
    Body(c) + "\n"
  }

  lemma FieldLengths()
    ensures forall n: u64 {:trigger Decimal(n)} :: |Decimal(n)| <= 20
    ensures forall n: u128 {:trigger Decimal(n)} :: |Decimal(n)| <= 39
    ensures forall n: u8 {:trigger Decimal(n)} :: |Decimal(n)| <= 3
  {
    PowerOfTenBounds();
    hide *;
    forall n: u64 ensures |Decimal(n)| <= 20 { DecimalLength(n, 20); }
    forall n: u128 ensures |Decimal(n)| <= 39 { DecimalLength(n, 39); }
    forall n: u8 ensures |Decimal(n)| <= 3 { DecimalLength(n, 3); }
  }

  /** Every encoded request fits the server's buffer with room to spare. */
  lemma EncodingIsShort(c: Command)
    ensures 2 <= |Encode(c)| <= 106
  {
    FieldLengths();
    hide Decimal;
  }

  predicate OneLine(s: string) {
    forall i | 0 <= i < |s| :: s[i] != '\n'
  }

  lemma DecimalIsOneLine(n: nat)
    ensures OneLine(Decimal(n))
  {
    DecimalIsDigits(n);
  }

  /** An encoded request is one line. */
  lemma BodyIsOneLine(c: Command)
    ensures OneLine(Body(c))
  {
    hide Decimal;
    match c
    case AddAccount(walId, credits, debits, flags) =>
      DecimalIsOneLine(walId);
      DecimalIsOneLine(Value(credits));
      DecimalIsOneLine(Value(debits));
      DecimalIsOneLine(flags);
    case MakeTransfer(walId, fromId, toId, amount) =>
      DecimalIsOneLine(walId);
      DecimalIsOneLine(fromId);
      DecimalIsOneLine(toId);
      DecimalIsOneLine(Value(amount));
    case GetAccount(accountId) =>
      DecimalIsOneLine(accountId);
    case UpdateAccount(walId, accountId, flags) =>
      DecimalIsOneLine(walId);
      DecimalIsOneLine(accountId);
      DecimalIsOneLine(flags);
    case _ =>
  }

  /** One line of each kind, as it goes out. */
  lemma Lines()
    ensures Encode(Magic) == ";\n" && Encode(CountDatabase) == "#\n" && Encode(Close) == ".\n"
    ensures Encode(GetAccount(9)) == "?9\n"
    ensures Encode(AddAccount(0, OfValue(5), OfValue(100), 7)) == "+0 5 100 7\n"
    ensures Encode(MakeTransfer(3, 0, 1, OfValue(25))) == "%3 0 1 25\n"
    ensures Encode(UpdateAccount(4, 1, 2)) == "=4 1 2\n"
  {
    Decimals();
    hide Decimal;
  }

  lemma Decimals()
    ensures forall d: nat | d < 10 :: Decimal(d) == [(d + 48) as char]
    ensures Decimal(25) == "25" && Decimal(100) == "100"
  {}
}
