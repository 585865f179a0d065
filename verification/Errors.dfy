/** The error values of the database server, their wire codes and what the server does about them. */
module Errors {
  import opened Common

  datatype AccountError = OutOfMemory | NotFound | CapacityOverflow

  datatype StateError = InvalidAccountList | InvalidTime

  datatype GuardError =
    | SameAccount
    | SenderNotFound
    | RecipientNotFound
    | InsufficientBalance
    | TransactionOverflow
    | ZeroBalance
    | CannotSend
    | CannotReceive
    | InvalidGuardState

  datatype NetworkError =
    | CreateFailed
    | BindFailed
    | ListenFailed
    | AcceptFailed
    | ReadFailed
    | WriteFailed
    | ReadTimeout
    | WriteTimeout
    | ServerClosed
    | ClientClosed
    | RequestEmpty
    | RequestMalformed
    | InvalidCommand
    | InvalidInteger
    | IntegerOverflow
    | ExpectedNewLine
    | ArgumentsMissing
    | RequestBufferOverflow
    | ResponseBufferOverflow

  datatype StorageError =
    | WalCreateFailed
    | WalOpenFailed
    | WalWriteFailed
    | WalReadFailed
    | WalSyncFailed
    | WalSeekFailed
    | WalTruncateFailed
    | WalInvalidMagic
    | WalInvalidVersion
    | WalNonceMismatch
    | WalChecksumMismatch
    | WalInvalidEntryType
    | WalInvalidTime
    | WalInvalidState
    | WalInvalidPath

  datatype CliError =
    | InvalidOption
    | InvalidPort
    | InvalidBacklog
    | InvalidReadTimeout
    | InvalidWriteTimeout
    | InvalidLogLevel

  datatype Error =
    | NoError
    | AccountFault(account: AccountError)
    | StateFault(state: StateError)
    | GuardFault(guard: GuardError)
    | NetworkFault(network: NetworkError)
    | StorageFault(storage: StorageError)
    | CliFault(cli: CliError)
  {
    predicate Exists() {
      !NoError?
    }
  }

  /** The module number of an error. */
  function Id(e: Error): u8 {
    match e
    case NoError => 0
    case AccountFault(_) => 1
    case StateFault(_) => 2
    case GuardFault(_) => 3
    case NetworkFault(_) => 4
    case StorageFault(_) => 5
    case CliFault(_) => 6
  }

  // Each enumeration numbers its errors from one.

  function AccountNumber(a: AccountError): u8 {
    match a
    case OutOfMemory => 1
    case NotFound => 2
    case CapacityOverflow => 3
  }

  function StateNumber(s: StateError): u8 {
    match s
    case InvalidAccountList => 1
    case InvalidTime => 2
  }

  function GuardNumber(g: GuardError): u8 {
    match g
    case SameAccount => 1
    case SenderNotFound => 2
    case RecipientNotFound => 3
    case InsufficientBalance => 4
    case TransactionOverflow => 5
    case ZeroBalance => 6
    case CannotSend => 7
    case CannotReceive => 8
    case InvalidGuardState => 9
  }

  function NetworkNumber(n: NetworkError): u8 {
    match n
    case CreateFailed => 1
    case BindFailed => 2
    case ListenFailed => 3
    case AcceptFailed => 4
    case ReadFailed => 5
    case WriteFailed => 6
    case ReadTimeout => 7
    case WriteTimeout => 8
    case ServerClosed => 9
    case ClientClosed => 10
    case RequestEmpty => 11
    case RequestMalformed => 12
    case InvalidCommand => 13
    case InvalidInteger => 14
    case IntegerOverflow => 15
    case ExpectedNewLine => 16
    case ArgumentsMissing => 17
    case RequestBufferOverflow => 18
    case ResponseBufferOverflow => 19
  }

  function StorageNumber(s: StorageError): u8 {
    match s
    case WalCreateFailed => 1
    case WalOpenFailed => 2
    case WalWriteFailed => 3
    case WalReadFailed => 4
    case WalSyncFailed => 5
    case WalSeekFailed => 6
    case WalTruncateFailed => 7
    case WalInvalidMagic => 8
    case WalInvalidVersion => 9
    case WalNonceMismatch => 10
    case WalChecksumMismatch => 11
    case WalInvalidEntryType => 12
    case WalInvalidTime => 13
    case WalInvalidState => 14
    case WalInvalidPath => 15
  }

  function CliNumber(c: CliError): u8 {
    match c
    case InvalidOption => 1
    case InvalidPort => 2
    case InvalidBacklog => 3
    case InvalidReadTimeout => 4
    case InvalidWriteTimeout => 5
    case InvalidLogLevel => 6
  }

  /** The number of an error inside its module. */
  function Number(e: Error): u8 {
    match e
    case NoError => 0
    case AccountFault(a) => AccountNumber(a)
    case StateFault(s) => StateNumber(s)
    case GuardFault(g) => GuardNumber(g)
    case NetworkFault(n) => NetworkNumber(n)
    case StorageFault(s) => StorageNumber(s)
    case CliFault(c) => CliNumber(c)
  }

  /** The code a client is told: a 16-bit product and sum that must not wrap. */
  function Code(e: Error): (code: u16)
    ensures e.Exists() ==> 1000 < code < 7000
  {
    if e.NoError? then 0 else (1000 * Id(e) + Number(e)) % U16_SIZE
  }

  lemma NumbersAreDistinct()
    ensures forall a, b: AccountError :: AccountNumber(a) == AccountNumber(b) ==> a == b
    ensures forall a, b: StateError :: StateNumber(a) == StateNumber(b) ==> a == b
    ensures forall a, b: GuardError :: GuardNumber(a) == GuardNumber(b) ==> a == b
    ensures forall a, b: CliError :: CliNumber(a) == CliNumber(b) ==> a == b
  {}

  lemma NetworkNumbersAreDistinct(a: NetworkError, b: NetworkError)
    requires NetworkNumber(a) == NetworkNumber(b)
    ensures a == b
  {}

  lemma StorageNumbersAreDistinct(a: StorageError, b: StorageError)
    requires StorageNumber(a) == StorageNumber(b)
    ensures a == b
  {}

  // The enumerations in the order in which they count from one.

  const NETWORK: seq<NetworkError> :=
    [CreateFailed, BindFailed, ListenFailed, AcceptFailed, ReadFailed, WriteFailed, ReadTimeout, WriteTimeout, ServerClosed,
     ClientClosed, RequestEmpty, RequestMalformed, InvalidCommand, InvalidInteger, IntegerOverflow, ExpectedNewLine,
     ArgumentsMissing, RequestBufferOverflow, ResponseBufferOverflow]

  const STORAGE: seq<StorageError> :=
    [WalCreateFailed, WalOpenFailed, WalWriteFailed, WalReadFailed, WalSyncFailed, WalSeekFailed, WalTruncateFailed,
     WalInvalidMagic, WalInvalidVersion, WalNonceMismatch, WalChecksumMismatch, WalInvalidEntryType, WalInvalidTime,
     WalInvalidState, WalInvalidPath]

  const GUARD: seq<GuardError> :=
    [SameAccount, SenderNotFound, RecipientNotFound, InsufficientBalance, TransactionOverflow, ZeroBalance, CannotSend,
     CannotReceive, InvalidGuardState]

  const ACCOUNT: seq<AccountError> := [OutOfMemory, NotFound, CapacityOverflow]

  const STATE: seq<StateError> := [InvalidAccountList, InvalidTime]

  /** Every code a client can see: the module's thousand, and the place of the error in its enumeration. */
  lemma CodesCount(i: nat)
    ensures i < |NETWORK| ==> Code(NetworkFault(NETWORK[i])) == 4001 + i
    ensures i < |STORAGE| ==> Code(StorageFault(STORAGE[i])) == 5001 + i
    ensures i < |GUARD| ==> Code(GuardFault(GUARD[i])) == 3001 + i
    ensures i < |ACCOUNT| ==> Code(AccountFault(ACCOUNT[i])) == 1001 + i
    ensures i < |STATE| ==> Code(StateFault(STATE[i])) == 2001 + i
  {
    NumbersCount(i);
    hide AccountNumber, StateNumber, GuardNumber, NetworkNumber, StorageNumber, NETWORK, STORAGE, GUARD, ACCOUNT, STATE;
  }

  lemma NumbersCount(i: nat)
    ensures |NETWORK| == 19 && |STORAGE| == 15 && |GUARD| == 9 && |ACCOUNT| == 3 && |STATE| == 2
    ensures i < |NETWORK| ==> NetworkNumber(NETWORK[i]) == 1 + i
    ensures i < |STORAGE| ==> StorageNumber(STORAGE[i]) == 1 + i
    ensures i < |GUARD| ==> GuardNumber(GUARD[i]) == 1 + i
    ensures i < |ACCOUNT| ==> AccountNumber(ACCOUNT[i]) == 1 + i
    ensures i < |STATE| ==> StateNumber(STATE[i]) == 1 + i
  {}

  lemma NumberIsSmall(e: Error)
    ensures Number(e) < 1000
  {}

  lemma SameIdAndNumber(e: Error, f: Error)
    requires Code(e) == Code(f)
    ensures Id(e) == Id(f) && Number(e) == Number(f)
  {
    NumberIsSmall(e);
    NumberIsSmall(f);
    hide Number;
  }

  /** Distinct errors have distinct codes, so a client can tell them apart. */
  lemma CodeIsInjective(e: Error, f: Error)
    requires Code(e) == Code(f)
    ensures e == f
  {
    hide AccountNumber, StateNumber, GuardNumber, NetworkNumber, StorageNumber, CliNumber, Code;
    SameIdAndNumber(e, f);
    match e
    case NetworkFault(n) => NetworkNumbersAreDistinct(n, f.network);
    case StorageFault(s) => StorageNumbersAreDistinct(s, f.storage);
    case _ => NumbersAreDistinct();
  }

  datatype Action = Proceed | Reject | Ignore | Close | Fatal

  /** What the main loop does about an error. */
  function ActionOf(e: Error): Action {
    match e
    case NoError => Proceed
    case AccountFault(a) => if a.OutOfMemory? then Fatal else Reject
    case StateFault(_) => Fatal
    case GuardFault(g) => if g.InvalidGuardState? then Fatal else Reject
    case NetworkFault(n) =>
      if n.CreateFailed? || n.BindFailed? || n.ListenFailed? || n.AcceptFailed? then Fatal
      else if n.ServerClosed? || n.ClientClosed? then Ignore
      else if n.ReadFailed? || n.WriteFailed? || n.ReadTimeout? || n.WriteTimeout?
              || n.RequestBufferOverflow? || n.ResponseBufferOverflow? then Close
      else Reject
    case StorageFault(s) => if s.WalNonceMismatch? then Reject else Fatal
    case CliFault(_) => Fatal
  }

  /** What each error does: which ones end the process, which ones the connection, and that all others are answered. */
  lemma ActionsSorted(e: Error)
    ensures ActionOf(e) == Proceed <==> e == NoError
    ensures ActionOf(e) == Fatal <==>
              || e == AccountFault(OutOfMemory) || e.StateFault? || e == GuardFault(InvalidGuardState) || e.CliFault?
              || (e.StorageFault? && e != StorageFault(WalNonceMismatch))
              || e in {NetworkFault(CreateFailed), NetworkFault(BindFailed), NetworkFault(ListenFailed),
                       NetworkFault(AcceptFailed)}
    ensures ActionOf(e) == Close <==>
              e in {NetworkFault(ReadFailed), NetworkFault(WriteFailed), NetworkFault(ReadTimeout), NetworkFault(WriteTimeout),
                    NetworkFault(RequestBufferOverflow), NetworkFault(ResponseBufferOverflow)}
    ensures ActionOf(e) == Ignore <==> e in {NetworkFault(ServerClosed), NetworkFault(ClientClosed)}
  {}
}
