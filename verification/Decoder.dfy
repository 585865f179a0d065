/** The server's request decoder: a state machine that takes one byte at a time. */
module Decoder {
  import opened Common
  import opened Errors
  import opened Protocol
  import opened Numbers

  // ----- the commands -----

  predicate IsCommand(c: char) {
    c == ';' || c == '+' || c == '%' || c == '?' || c == '#' || c == '=' || c == '.'
  }

  function Arity(kind: char): u8 {
    if kind == '+' || kind == '%' then 4 else if kind == '=' then 3 else if kind == '?' then 1 else 0
  }

  /** The size of the type that holds argument `i` of a command. */
  function Limit(kind: char, i: nat): nat
    requires i < Arity(kind)
  {
    if kind == '+' then [U64_SIZE, U128_SIZE, U128_SIZE, U8_SIZE][i]
    else if kind == '%' then [U64_SIZE, U64_SIZE, U64_SIZE, U128_SIZE][i]
    else if kind == '=' then [U64_SIZE, U64_SIZE, U8_SIZE][i]
    else U64_SIZE
  }

  predicate Fits(kind: char, values: seq<nat>) {
    && |values| <= Arity(kind)
    && forall i | 0 <= i < |values| :: values[i] < Limit(kind, i)
  }

  /** The request with these arguments. */
  function RequestOf(kind: char, values: seq<nat>): Request
    requires IsCommand(kind) && |values| == Arity(kind) && Fits(kind, values)
  {
    if kind == ';' then MagicRequest
    else if kind == '+' then AddAccountRequest(values[0], values[1], values[2], values[3])
    else if kind == '%' then MakeTransferRequest(values[0], values[1], values[2], values[3])
    else if kind == '?' then GetAccountRequest(values[0])
    else if kind == '#' then CountDatabaseRequest
    else if kind == '=' then UpdateAccountRequest(values[0], values[1], values[2])
    else CloseRequest
  }

  // ----- the machine on values -----

  /** Nothing read; reading argument number |done|, worth `value` so far; all read. */
  datatype Progress =
    | Start
    | Arguments(kind: char, done: seq<nat>, value: nat)
    | Finished(kind: char, done: seq<nat>)

  predicate Sound(p: Progress) {
    match p
    case Start => true
    case Arguments(kind, done, value) =>
      IsCommand(kind) && (if Arity(kind) == 0 then done == [] && value == 0 else Fits(kind, done + [value]))
    case Finished(kind, done) => IsCommand(kind) && |done| == Arity(kind) && Fits(kind, done)
  }

  /** An integer with one more byte; a space or an underscore adds nothing. */
  function Extend(value: nat, c: char, limit: nat): (extended: Result<nat, NetworkError>)
    requires value < limit
    ensures extended.Ok? ==> value <= extended.value < limit
  {
    if IsDecimalDigit(c) then
      if 10 * value + DecimalValue(c) < limit then Ok(10 * value + DecimalValue(c)) else Err(IntegerOverflow)
    else if c == ' ' || c == '_' then Ok(value)
    else Err(InvalidInteger)
  }

  /** After an argument comes the next one, or the end. */
  function NextArgument(kind: char, done: seq<nat>): (p: Progress)
    requires IsCommand(kind) && Fits(kind, done) && done != []
    ensures Sound(p)
  {
    if |done| == Arity(kind) then Finished(kind, done) else Arguments(kind, done, 0)
  }

  function Take(p: Progress, c: char): (after: Result<Progress, NetworkError>)
    requires Sound(p) && !p.Finished?
    ensures after.Ok? ==> Sound(after.value) && !after.value.Start?
    ensures after.Err? ==> after.error != ArgumentsMissing && after.error != RequestMalformed
  {
    if p.Start? then
      if IsCommand(c) then
        assert Arity(c) > 0 ==> Limit(c, 0) > 0;
        Ok(Arguments(c, [], 0))
      else Err(InvalidCommand)
    else if Arity(p.kind) == 0 then
      if c == ' ' then Ok(Finished(p.kind, [])) else Err(ExpectedNewLine)
    else
      match Extend(p.value, c, Limit(p.kind, |p.done|))
      case Err(e) => Err(e)
      case Ok(value) => Ok(if c == ' ' then NextArgument(p.kind, p.done + [value]) else Arguments(p.kind, p.done, value))
  }

  /** Where the machine stops, and the bytes it has not looked at. */
  function Run(p: Progress, bytes: string): (end: Result<(Progress, string), NetworkError>)
    requires Sound(p)
    ensures end.Ok? ==> Sound(end.value.0) && (end.value.0.Finished? || end.value.1 == [])
    ensures end.Ok? && bytes != [] ==> !end.value.0.Start?
    ensures end.Err? ==> end.error != ArgumentsMissing && end.error != RequestMalformed
    decreases |bytes|
  {
    if bytes == [] || p.Finished? then Ok((p, bytes))
    else
      match Take(p, bytes[0])
      case Ok(after) => Run(after, bytes[1..])
      case Err(e) => Err(e)
  }

  function Decode(bytes: string): Result<Request, NetworkError> {
    if bytes == [] then Err(RequestEmpty)
    else
      match Run(Start, bytes)
      case Err(e) => Err(e)
      case Ok((p, rest)) =>
        if p.Arguments? && Arity(p.kind) > 0 then Err(ArgumentsMissing)
        else if !p.Finished? || rest != [] then Err(RequestMalformed)
        else Ok(RequestOf(p.kind, p.done))
  }

  // ----- the machine on fields -----

  function KindOf(r: Request): (kind: char)
    ensures IsCommand(kind)
  {
    match r
    case MagicRequest => ';'
    case AddAccountRequest(_, _, _, _) => '+'
    case MakeTransferRequest(_, _, _, _) => '%'
    case GetAccountRequest(_) => '?'
    case CountDatabaseRequest => '#'
    case UpdateAccountRequest(_, _, _) => '='
    case CloseRequest => '.'
  }

  function Fields(r: Request): (values: seq<nat>)
    ensures |values| == Arity(KindOf(r)) && Fits(KindOf(r), values)
    ensures RequestOf(KindOf(r), values) == r
  {
    match r
    case AddAccountRequest(walId, credits, debits, flags) => [walId, credits, debits, flags]
    case MakeTransferRequest(walId, fromId, toId, amount) => [walId, fromId, toId, amount]
    case GetAccountRequest(accountId) => [accountId]
    case UpdateAccountRequest(walId, accountId, flags) => [walId, accountId, flags]
    case _ => []
  }

  /** The arguments after the current one are still zero, as the decoder was initialized. */
  predicate Untouched(r: Request, argc: u8) {
    match r
    case AddAccountRequest(_, credits, debits, flags) =>
      (argc > 3 ==> credits == 0) && (argc > 2 ==> debits == 0) && (argc > 1 ==> flags == 0)
    case MakeTransferRequest(_, fromId, toId, amount) =>
      (argc > 3 ==> fromId == 0) && (argc > 2 ==> toId == 0) && (argc > 1 ==> amount == 0)
    case UpdateAccountRequest(_, accountId, flags) =>
      (argc > 2 ==> accountId == 0) && (argc > 1 ==> flags == 0)
    case _ => true
  }

  /** Where the fields of a request and the number of missing arguments put the machine. */
  function Reading(r: Request, argc: u8): (p: Progress)
    requires 0 < argc <= Arity(KindOf(r))
    ensures Sound(p)
    ensures p.Arguments? && p.kind == KindOf(r)
    ensures |p.done| == Arity(KindOf(r)) - argc && p.value == Fields(r)[|p.done|]
  {
    var kind, fields, n := KindOf(r), Fields(r), Arity(KindOf(r)) - argc;
    assert fields[..n] + [fields[n]] == fields[..n + 1];
    Arguments(kind, fields[..n], fields[n])
  }

  /** Writing the current field extends the current argument; with one missing argument less, the next one begins. */
  lemma FieldWritten(r: Request, argc: u8, r': Request, value: nat)
    requires 0 < argc <= Arity(KindOf(r)) && KindOf(r') == KindOf(r)
    requires Untouched(r, argc)
    requires Fields(r') == Fields(r)[Arity(KindOf(r)) - argc := value]
    ensures Reading(r', argc) == Arguments(KindOf(r), Reading(r, argc).done, value)
    ensures argc > 1 ==> Reading(r', argc - 1) == NextArgument(KindOf(r), Reading(r, argc).done + [value])
  {
    var n := Arity(KindOf(r)) - argc;
    assert Fields(r')[..n] == Fields(r)[..n];
    assert Fields(r')[..n + 1] == Fields(r)[..n] + [value];
  }

  /** Storing one byte in the current field is one step of the machine. */
  lemma StoringTakes(r: Request, argc: u8, c: char, r': Request)
    requires 0 < argc <= Arity(KindOf(r)) && !(argc == 1 && c == ' ')
    requires KindOf(r') == KindOf(r) && Untouched(r, argc)
    ensures var i := Arity(KindOf(r)) - argc;
            match Extend(Fields(r)[i], c, Limit(KindOf(r), i))
            case Err(e) => Take(Reading(r, argc), c) == Err(e)
            case Ok(value) =>
              Fields(r') == Fields(r)[i := value] ==>
                Take(Reading(r, argc), c) == Ok(Reading(r', if c == ' ' then argc - 1 else argc))
  {
    hide Reading, NextArgument, Fields, Limit;
    var i := Arity(KindOf(r)) - argc;
    var extended := Extend(Fields(r)[i], c, Limit(KindOf(r), i));
    if extended.Ok? && Fields(r') == Fields(r)[i := extended.value] {
      FieldWritten(r, argc, r', extended.value);
    }
  }

  /** A space after the last argument finishes the request with the fields as they are. */
  lemma LastArgumentTakes(r: Request)
    requires Arity(KindOf(r)) > 0
    ensures Take(Reading(r, 1), ' ') == Ok(Finished(KindOf(r), Fields(r)))
  {
    var n := Arity(KindOf(r)) - 1;
    assert Fields(r)[..n] + [Fields(r)[n]] == Fields(r);
  }

  datatype DecoderState = Command | Argument | End

  class RequestDecoder {
    const buffer: array?<char>
    const bufferLength: nat
    var request: Request
    var argc: u8
    var state: DecoderState

    ghost predicate Valid()
      reads this
    {
      && (buffer != null ==> bufferLength <= buffer.Length)
      && (state.Command? ==> argc == 0)
      && (state.Argument? ==>
            && argc <= Arity(KindOf(request))
            && (argc == 0 ==> Arity(KindOf(request)) == 0)
            && Untouched(request, argc))
      && (state.End? ==> argc == 0)
    }

    ghost function View(): (p: Progress)
      requires Valid()
      reads this
      ensures Sound(p)
    {
      if state.Command? then Start
      else if state.End? then Finished(KindOf(request), Fields(request))
      else if argc == 0 then Arguments(KindOf(request), [], 0)
      else Reading(request, argc)
    }

    constructor (buffer: array?<char>, bufferLength: nat)
      requires buffer != null ==> bufferLength <= buffer.Length
      ensures Valid() && View() == Start
      ensures this.buffer == buffer && this.bufferLength == bufferLength
    {
      this.buffer, this.bufferLength := buffer, bufferLength;
      request, argc, state := MagicRequest, 0, Command;
    }

    /** The command byte decides the request type and how many arguments follow. */
    method RunCommand(c: char) returns (error: Error)
      requires Valid() && state.Command?
      modifies this
      ensures Valid()
      ensures error == (match Take(Start, c) case Ok(_) => NoError case Err(e) => NetworkFault(e))
      ensures !error.Exists() ==> View() == Take(Start, c).value
    {
      match c {
        case ';' => request := MagicRequest;
        case '+' => request, argc := AddAccountRequest(0, 0, 0, 0), 4;
        case '%' => request, argc := MakeTransferRequest(0, 0, 0, 0), 4;
        case '?' => request, argc := GetAccountRequest(0), 1;
        case '#' => request := CountDatabaseRequest;
        case '=' => request, argc := UpdateAccountRequest(0, 0, 0), 3;
        case '.' => request := CloseRequest;
        case _ => return NetworkFault(InvalidCommand);
      }
      state := Argument;
      return NoError;
    }

    /**
     One byte of an integer. Neither the product nor the sum wraps: the two checks together refuse exactly the digits
     that take the value past its type.
     */
    method ParseU128(c: char, input: u128) returns (error: Error, output: u128)
      requires argc > 0
      modifies `argc
      ensures match Extend(input, c, U128_SIZE)
              case Ok(value) => error == NoError && output == value
              case Err(e) => error == NetworkFault(e)
      ensures argc == if c == ' ' then old(argc) - 1 else old(argc)
    {
      output := input;
      if '0' <= c <= '9' {
        var digit: u8 := c as int - '0' as int;
        if output > U128_MAX / 10 {
          return NetworkFault(IntegerOverflow), output;
        }
        output := output * 10;
        if digit > U128_MAX - output {
          return NetworkFault(IntegerOverflow), output;
        }
        output := output + digit;
      } else if c == ' ' {
        argc := argc - 1;
      } else if c != '_' {
        return NetworkFault(InvalidInteger), output;
      }
      return NoError, output;
    }

    method ParseU64(c: char, input: u64) returns (error: Error, output: u64)
      requires argc > 0
      modifies `argc
      ensures match Extend(input, c, U64_SIZE)
              case Ok(value) => error == NoError && output == value
              case Err(e) => error == NetworkFault(e)
      ensures argc == if c == ' ' then old(argc) - 1 else old(argc)
    {
      output := input;
      var wide;
      error, wide := ParseU128(c, input);
      if error.Exists() {
        return;
      }
      if wide > U64_MAX {
        return NetworkFault(IntegerOverflow), output;
      }
      output := wide;
    }

    method ParseU8(c: char, input: u8) returns (error: Error, output: u8)
      requires argc > 0
      modifies `argc
      ensures match Extend(input, c, U8_SIZE)
              case Ok(value) => error == NoError && output == value
              case Err(e) => error == NetworkFault(e)
      ensures argc == if c == ' ' then old(argc) - 1 else old(argc)
    {
      output := input;
      var wide;
      error, wide := ParseU128(c, input);
      if error.Exists() {
        return;
      }
      if wide > U8_SIZE - 1 {
        return NetworkFault(IntegerOverflow), output;
      }
      output := wide;
    }

    /** One byte into the field that the number of missing arguments selects. */
    method StoreArgument(c: char) returns (error: Error)
      requires 0 < argc <= Arity(KindOf(request))
      modifies `request, `argc
      ensures KindOf(request) == KindOf(old(request))
      ensures var i := Arity(KindOf(old(request))) - old(argc);
              match Extend(Fields(old(request))[i], c, Limit(KindOf(old(request)), i))
              case Ok(value) => error == NoError && Fields(request) == Fields(old(request))[i := value]
              case Err(e) => error == NetworkFault(e)
      ensures argc == if c == ' ' then old(argc) - 1 else old(argc)
      ensures Untouched(old(request), old(argc)) ==> Untouched(request, old(argc))
    {
      hide Extend;
      match request {
        case AddAccountRequest(walId, credits, debits, flags) =>
          if argc == 4 {
            error, walId := ParseU64(c, walId);
          } else if argc == 3 {
            error, credits := ParseU128(c, credits);
          } else if argc == 2 {
            error, debits := ParseU128(c, debits);
          } else if argc == 1 {
            error, flags := ParseU8(c, flags);
          }
          request := AddAccountRequest(walId, credits, debits, flags);
        case MakeTransferRequest(walId, fromId, toId, amount) =>
          if argc == 4 {
            error, walId := ParseU64(c, walId);
          } else if argc == 3 {
            error, fromId := ParseU64(c, fromId);
          } else if argc == 2 {
            error, toId := ParseU64(c, toId);
          } else if argc == 1 {
            error, amount := ParseU128(c, amount);
          }
          request := MakeTransferRequest(walId, fromId, toId, amount);
        case GetAccountRequest(accountId) =>
          if argc == 1 {
            error, accountId := ParseU64(c, accountId);
          }
          request := GetAccountRequest(accountId);
        case UpdateAccountRequest(walId, accountId, flags) =>
          if argc == 3 {
            error, walId := ParseU64(c, walId);
          } else if argc == 2 {
            error, accountId := ParseU64(c, accountId);
          } else if argc == 1 {
            error, flags := ParseU8(c, flags);
          }
          request := UpdateAccountRequest(walId, accountId, flags);
        case _ =>
          error := NoError;
      }
    }

    /** One byte of the arguments. */
    method RunArgument(c: char) returns (error: Error)
      requires Valid() && state.Argument?
      modifies this
      ensures Valid()
      ensures error == (match Take(old(View()), c) case Ok(_) => NoError case Err(e) => NetworkFault(e))
      ensures !error.Exists() ==> View() == Take(old(View()), c).value
    {
      ghost var before, missing := request, argc;
      if argc == 0 {
        if c == ' ' {
          state := End;
          return NoError;
        }
        return NetworkFault(ExpectedNewLine);
      }
      hide Take, Extend, Reading, NextArgument, Fields, Limit;
      if argc == 1 && c == ' ' {
        LastArgumentTakes(request);
        argc := argc - 1;
        state := End;
        return NoError;
      }
      error := StoreArgument(c);
      StoringTakes(before, missing, c, request);
    }

    /** Decodes the whole buffer; the request counts only when there is no error. */
    method RunBuffer() returns (error: Error)
      requires Valid() && state.Command?
      modifies this
      ensures buffer == null ==> error == NetworkFault(RequestEmpty)
      ensures buffer != null ==>
                match Decode(buffer[..bufferLength])
                case Ok(r) => error == NoError && request == r
                case Err(e) => error == NetworkFault(e)
    {
      if buffer == null || bufferLength == 0 {
        return NetworkFault(RequestEmpty);
      }
      ghost var bytes := buffer[..bufferLength];
      var index := 0;
      error := NoError;
      while index < bufferLength && !state.End?
        invariant Valid() && index <= bufferLength && (index > 0 ==> !state.Command?)
        invariant !error.Exists()
        invariant Run(View(), bytes[index..]) == Run(Start, bytes)
        decreases bufferLength - index
      {
        var byte := buffer[index];
        assert bytes[index..][0] == byte && bytes[index..][1..] == bytes[index + 1..];
        match state {
          case Command =>
            error := RunCommand(byte);
            if error.Exists() {
              return;
            }
          case Argument =>
            error := RunArgument(byte);
            if error.Exists() {
              return;
            }
          case End =>
        }
        index := index + 1;
      }
      if argc != 0 {
        return NetworkFault(ArgumentsMissing);
      }
      if !state.End? || index != bufferLength {
        return NetworkFault(RequestMalformed);
      }
    }
  }
}
