/** The driver's response parser, and what it makes of the server's texts. */
module Responses {
  import opened Common
  import opened Errors
  import opened Numbers
  import opened Uint128
  import Protocol
  import Encoder

  datatype Response =
    | Magic
    | AddAccount(accountId: u64)
    | GetAccount(credits: Uint128, debits: Uint128, flags: u8)
    | CountDatabase(accounts: u64, transactions: u64)
    | Okay
    | Error(code: u16)

  datatype ParseError =
    | EmptyResponse
    | WrongFormat(kind: string)
    | WrongField(kind: string)
    | UnknownKind(kind: string)

  // ----- the standard library -----

  predicate IsSpace(c: char) {
    c == ' ' || '\t' <= c <= '\r'
  }

  function TrimLeft(s: string): (t: string)
    ensures t != [] ==> !IsSpace(t[0])
  {
    if s != [] && IsSpace(s[0]) then TrimLeft(s[1..]) else s
  }

  function TrimRight(s: string): (t: string)
    ensures t <= s && (t != [] ==> !IsSpace(t[|t| - 1]))
  {
    if s != [] && IsSpace(s[|s| - 1]) then TrimRight(s[..|s| - 1]) else s
  }

  function TrimSpace(s: string): string {
    TrimRight(TrimLeft(s))
  }

  /** The parts between single spaces; one more part than there are spaces. */
  function Split(s: string): (parts: seq<string>)
    ensures parts != []
  {
    if s == [] then [""]
    else if s[0] == ' ' then [""] + Split(s[1..])
    else
      var rest := Split(s[1..]);
      [[s[0]] + rest[0]] + rest[1..]
  }

  /** Hexadecimal digits only, of either case, that fit the size. */
  function ParseUint(s: string, size: nat): (n: Option<nat>)
    ensures n.Some? ==> n.value < size
  {
    if s != [] && AllDigits(s, 16) && NumberIn(s, 16) < size then Some(NumberIn(s, 16)) else None
  }

  // ----- the parser -----

  function ParseResponse(data: string): Result<Response, ParseError> {
    var trimmed := TrimSpace(data);
    if trimmed == [] then Err(EmptyResponse) else ParseParameters(Split(trimmed))
  }

  function ParseParameters(p: seq<string>): Result<Response, ParseError>
    requires p != []
  {
    var kind := p[0];
    if kind == "LET" then
      if |p| != 1 then Err(WrongFormat(kind)) else Ok(Magic)
    else if kind == "OKE" then
      if |p| != 1 then Err(WrongFormat(kind)) else Ok(Okay)
    else if kind == "AID" then
      if |p| != 2 then Err(WrongFormat(kind))
      else
        var id := ParseUint(p[1], U64_SIZE);
        if id.None? then Err(WrongField(kind)) else Ok(AddAccount(id.value))
    else if kind == "ACC" then
      if |p| != 4 then Err(WrongFormat(kind))
      else
        var credits, debits, flags := Parse(p[1], 16), Parse(p[2], 16), ParseUint(p[3], U8_SIZE);
        if credits.Err? || debits.Err? || flags.None? then Err(WrongField(kind))
        else Ok(GetAccount(credits.value, debits.value, flags.value))
    else if kind == "LEN" then
      if |p| != 3 then Err(WrongFormat(kind))
      else
        var accounts, transactions := ParseUint(p[1], U64_SIZE), ParseUint(p[2], U64_SIZE);
        if accounts.None? || transactions.None? then Err(WrongField(kind))
        else Ok(CountDatabase(accounts.value, transactions.value))
    else if kind == "ERR" then
      if |p| != 2 then Err(WrongFormat(kind))
      else
        var code := ParseUint(p[1], U16_SIZE);
        if code.None? then Err(WrongField(kind)) else Ok(Error(code.value))
    else Err(UnknownKind(kind))
  }

  /** A field that holds a number: hexadecimal digits of either case, and a value that fits. */
  predicate Spells(field: string, size: nat, n: nat) {
    field != [] && AllDigits(field, 16) && NumberIn(field, 16) == n < size
  }

  /** How many fields a response of this kind has; none for a kind that does not exist. */
  function FieldCount(kind: string): Option<nat> {
    if kind == "LET" || kind == "OKE" then Some(0)
    else if kind == "AID" || kind == "ERR" then Some(1)
    else if kind == "LEN" then Some(2)
    else if kind == "ACC" then Some(3)
    else None
  }

  /** Exactly what is parsed to each response: its kind, its fields, and nothing else between white space. */
  lemma ParseIsExact(data: string, r: Response)
    ensures ParseResponse(data) == Ok(r) <==>
              && TrimSpace(data) != ""
              && var p := Split(TrimSpace(data));
                 match r
                 case Magic => p == ["LET"]
                 case Okay => p == ["OKE"]
                 case AddAccount(id) => |p| == 2 && p[0] == "AID" && Spells(p[1], U64_SIZE, id)
                 case GetAccount(credits, debits, flags) =>
                   && |p| == 4 && p[0] == "ACC" && Parse(p[1], 16) == Ok(credits) && Parse(p[2], 16) == Ok(debits)
                   && Spells(p[3], U8_SIZE, flags)
                 case CountDatabase(accounts, transactions) =>
                   && |p| == 3 && p[0] == "LEN"
                   && Spells(p[1], U64_SIZE, accounts) && Spells(p[2], U64_SIZE, transactions)
                 case Error(code) => |p| == 2 && p[0] == "ERR" && Spells(p[1], U16_SIZE, code)
  {
    hide Split, TrimSpace, Parse, AllDigits, NumberIn;
  }

  /** Why a text is not parsed: nothing there, no such kind, the wrong number of fields, or a field that is no number. */
  lemma ParseObjects(data: string)
    ensures ParseResponse(data) == Err(EmptyResponse) <==> TrimSpace(data) == ""
    ensures TrimSpace(data) != "" && ParseResponse(data).Err? ==>
              var p := Split(TrimSpace(data));
              ParseResponse(data).error
              == if FieldCount(p[0]).None? then UnknownKind(p[0])
                 else if |p| != 1 + FieldCount(p[0]).value then WrongFormat(p[0])
                 else WrongField(p[0])
  {
    hide Split, TrimSpace, Parse, ParseUint;
  }

  /** The response a client is meant to see. */
  function Seen(r: Protocol.Response): Response {
    match r
    case MagicResponse => Magic
    case AddAccountResponse(id) => AddAccount(id)
    case GetAccountResponse(credits, debits, flags) => GetAccount(OfValue(credits), OfValue(debits), flags)
    case CountDatabaseResponse(accounts, entries) => CountDatabase(accounts, entries)
    case OkResponse => Okay
    case ErrorResponse(error) => Error(Code(error))
  }

  // ----- hexadecimal read back -----

  predicate IsHexText(s: string) {
    forall i | 0 <= i < |s| :: '0' <= s[i] <= '9' || 'A' <= s[i] <= 'F'
  }

  lemma NumberInMore(s: string, c: char)
    requires AllDigits(s, 16) && DigitValue(c) < 16
    ensures AllDigits(s + [c], 16) && NumberIn(s + [c], 16) == 16 * NumberIn(s, 16) + DigitValue(c)
  {
    assert (s + [c])[..|s|] == s;
  }

  lemma NumberInTwoMore(s: string, c: char, d: char)
    requires AllDigits(s, 16) && DigitValue(c) < 16 && DigitValue(d) < 16
    ensures AllDigits(s + [c, d], 16)
    ensures NumberIn(s + [c, d], 16) == 256 * NumberIn(s, 16) + 16 * DigitValue(c) + DigitValue(d)
  {
    NumberInMore(s, c);
    NumberInMore(s + [c], d);
    hide *;
    assert s + [c] + [d] == s + [c, d];
  }

  lemma NumberOfPair(s: string, b: u8)
    requires AllDigits(s, 16) && IsHexText(s)
    ensures AllDigits(s + Encoder.Pair(b), 16) && IsHexText(s + Encoder.Pair(b))
    ensures NumberIn(s + Encoder.Pair(b), 16) == 256 * NumberIn(s, 16) + b
  {
    hide NumberIn, AllDigits, DigitValue, Encoder.HexDigit;
    HexDigitValue(b / 16);
    HexDigitValue(b % 16);
    NumberInTwoMore(s, Encoder.HexDigit(b / 16), Encoder.HexDigit(b % 16));
  }

  lemma {:induction false} NumberOfHex(n: nat)
    ensures IsHexText(Encoder.Hex(n)) && AllDigits(Encoder.Hex(n), 16)
    ensures NumberIn(Encoder.Hex(n), 16) == n
    decreases n
  {
    hide Encoder.Pair, AllDigits, IsHexText;
    if n < 256 {
      EmptyText();
      NumberOfPair("", n);
      assert "" + Encoder.Pair(n) == Encoder.Pair(n);
    } else {
      NumberOfHex(n / 256);
      NumberOfPair(Encoder.Hex(n / 256), n % 256);
    }
  }

  lemma EmptyText()
    ensures AllDigits("", 16) && IsHexText("") && NumberIn("", 16) == 0
  {}

  lemma HexDigitValue(d: nat)
    requires d < 16
    ensures DigitValue(Encoder.HexDigit(d)) == d
    ensures var c := Encoder.HexDigit(d); '0' <= c <= '9' || 'A' <= c <= 'F'
  {}

  lemma ParseOfHex(n: nat, size: nat)
    requires n < size
    ensures ParseUint(Encoder.Hex(n), size) == Some(n)
  {
    NumberOfHex(n);
  }

  lemma ParseWideOfHex(n: u128)
    ensures Parse(Encoder.Hex(n), 16) == Ok(OfValue(n))
  {
    NumberOfHex(n);
    var s := Encoder.Hex(n);
    assert s[0] != '+' && s[0] != '-';
    ValueIsInjective(Parse(s, 16).value, OfValue(n));
  }

  // ----- text taken apart -----

  predicate NoSpace(s: string) {
    forall i | 0 <= i < |s| :: !IsSpace(s[i])
  }

  lemma HexHasNoSpace(n: nat)
    ensures NoSpace(Encoder.Hex(n)) && |Encoder.Hex(n)| > 0
  {
    NumberOfHex(n);
  }

  /** Parts put together again, with a space between each two of them. */
  function Rejoined(parts: seq<string>): string
    requires parts != []
    decreases |parts|
  {
    if |parts| == 1 then parts[0] else parts[0] + " " + Rejoined(parts[1..])
  }

  /** The parts are exactly what is between the spaces. */
  lemma {:induction false} SplitIsExact(s: string)
    ensures Rejoined(Split(s)) == s
    ensures forall part | part in Split(s) :: ' ' !in part
    decreases |s|
  {
    if s != [] {
      var rest := Split(s[1..]);
      SplitIsExact(s[1..]);
      assert s == [s[0]] + s[1..];
      if s[0] == ' ' {
        assert ([""] + rest)[1..] == rest;
        assert "" + " " + Rejoined(rest) == " " + Rejoined(rest);
      } else {
        var parts := [[s[0]] + rest[0]] + rest[1..];
        assert parts[1..] == rest[1..];
        assert rest[0] in rest;
        if |rest| > 1 {
          Associates([s[0]], rest[0] + " ", Rejoined(rest[1..]));
        }
      }
    }
  }

  lemma {:induction false} SplitOne(a: string)
    requires NoSpace(a)
    ensures Split(a) == [a]
    decreases |a|
  {
    if a != [] {
      assert !IsSpace(a[0]) && [a[0]] + a[1..] == a;
      SplitOne(a[1..]);
    }
  }

  lemma {:induction false} SplitMore(a: string, b: string)
    requires NoSpace(a)
    ensures Split(a + " " + b) == [a] + Split(b)
    decreases |a|
  {
    var s := a + " " + b;
    if a == [] {
      assert s[1..] == b;
    } else {
      assert s[1..] == a[1..] + " " + b;
      assert !IsSpace(a[0]) && [a[0]] + a[1..] == a;
      SplitMore(a[1..], b);
      assert ([a[1..]] + Split(b))[1..] == Split(b);
    }
  }

  lemma TrimOfLine(body: string)
    requires body != [] && !IsSpace(body[0]) && !IsSpace(body[|body| - 1])
    ensures TrimSpace(body + "\n") == body
  {
    var s := body + "\n";
    assert TrimLeft(s) == s;
    assert s[..|s| - 1] == body && s[|s| - 1] == '\n';
    assert TrimRight(s) == TrimRight(body);
  }

  /** A text made of a kind and hexadecimal fields, taken apart again. */
  lemma PartsOfFields(kind: string, fields: seq<nat>)
    requires |kind| == 3 && NoSpace(kind)
    ensures TrimSpace(Joined(kind, fields) + "\n") == Joined(kind, fields) != []
    ensures Split(Joined(kind, fields)) == [kind] + HexTexts(fields)
  {
    JoinedEnds(kind, fields);
    TrimOfLine(Joined(kind, fields));
    SplitOfJoined(kind, fields);
  }

  function HexTexts(fields: seq<nat>): (texts: seq<string>)
    ensures |texts| == |fields| && forall i | 0 <= i < |fields| :: texts[i] == Encoder.Hex(fields[i])
  {
    seq(|fields|, i requires 0 <= i < |fields| => Encoder.Hex(fields[i]))
  }

  function Joined(head: string, fields: seq<nat>): string
    decreases |fields|
  {
    if fields == [] then head else head + " " + Joined(Encoder.Hex(fields[0]), fields[1..])
  }

  lemma {:induction false} JoinedEnds(head: string, fields: seq<nat>)
    requires head != [] && NoSpace(head)
    ensures var s := Joined(head, fields); s != [] && !IsSpace(s[0]) && !IsSpace(s[|s| - 1])
    decreases |fields|
  {
    if fields != [] {
      HexHasNoSpace(fields[0]);
      JoinedEnds(Encoder.Hex(fields[0]), fields[1..]);
    }
  }

  lemma {:induction false} SplitOfJoined(head: string, fields: seq<nat>)
    requires NoSpace(head)
    ensures Split(Joined(head, fields)) == [head] + HexTexts(fields)
    decreases |fields|
  {
    if fields == [] {
      SplitOne(head);
    } else {
      hide Split;
      HexHasNoSpace(fields[0]);
      SplitMore(head, Joined(Encoder.Hex(fields[0]), fields[1..]));
      SplitOfJoined(Encoder.Hex(fields[0]), fields[1..]);
      assert [Encoder.Hex(fields[0])] + HexTexts(fields[1..]) == HexTexts(fields);
    }
  }

  /** The kind and the fields of a response. */
  function KindOf(r: Protocol.Response): string {
    match r
    case MagicResponse => "LET"
    case AddAccountResponse(_) => "AID"
    case GetAccountResponse(_, _, _) => "ACC"
    case CountDatabaseResponse(_, _) => "LEN"
    case OkResponse => "OKE"
    case ErrorResponse(_) => "ERR"
  }

  function FieldsOf(r: Protocol.Response): seq<nat> {
    match r
    case AddAccountResponse(id) => [id]
    case GetAccountResponse(credits, debits, flags) => [credits, debits, flags]
    case CountDatabaseResponse(accounts, entries) => [accounts, entries]
    case ErrorResponse(error) => [Code(error)]
    case _ => []
  }

  lemma JoinedOne(head: string, n: nat)
    ensures Joined(head, [n]) == head + " " + Encoder.Hex(n)
  {
    assert [n][1..] == [];
  }

  lemma JoinedTwo(head: string, m: nat, n: nat)
    ensures Joined(head, [m, n]) == head + " " + Encoder.Hex(m) + " " + Encoder.Hex(n)
  {
    assert [m, n][1..] == [n];
    JoinedOne(Encoder.Hex(m), n);
  }

  lemma JoinedThree(head: string, l: nat, m: nat, n: nat)
    ensures Joined(head, [l, m, n]) == head + " " + Encoder.Hex(l) + " " + Encoder.Hex(m) + " " + Encoder.Hex(n)
  {
    assert [l, m, n][1..] == [m, n];
    JoinedTwo(Encoder.Hex(l), m, n);
  }

  lemma TextIsJoined(r: Protocol.Response)
    ensures Encoder.Text(r) == Joined(KindOf(r), FieldsOf(r)) + "\n"
  {
    if FieldsOf(r) == [] {
      assert Joined(KindOf(r), []) == KindOf(r);
      return;
    }
    hide Encoder.Hex, Code, Joined;
    match r
    case AddAccountResponse(id) =>
      JoinedOne("AID", id);
      assert "AID" + " " == "AID ";
    case GetAccountResponse(credits, debits, flags) =>
      JoinedThree("ACC", credits, debits, flags);
      assert "ACC" + " " == "ACC ";
    case CountDatabaseResponse(accounts, entries) =>
      JoinedTwo("LEN", accounts, entries);
      assert "LEN" + " " == "LEN ";
    case ErrorResponse(error) =>
      JoinedOne("ERR", Code(error));
      assert "ERR" + " " == "ERR ";
  }

  /** The driver reads every response the server can write as the response that was meant. */
  lemma ParseOfText(r: Protocol.Response)
    ensures ParseResponse(Encoder.Text(r)) == Ok(Seen(r))
  {
    hide Encoder.Hex, Encoder.Text, Code, Joined, Split, TrimSpace, Parse, ParseUint;
    TextIsJoined(r);
    PartsOfFields(KindOf(r), FieldsOf(r));
    var p := [KindOf(r)] + HexTexts(FieldsOf(r));
    assert ParseResponse(Encoder.Text(r)) == ParseParameters(p);
    match r
    case AddAccountResponse(id) => ParseOfHex(id, U64_SIZE);
    case GetAccountResponse(credits, debits, flags) =>
      ParseWideOfHex(credits);
      ParseWideOfHex(debits);
      ParseOfHex(flags, U8_SIZE);
    case CountDatabaseResponse(accounts, entries) =>
      ParseOfHex(accounts, U64_SIZE);
      ParseOfHex(entries, U64_SIZE);
    case ErrorResponse(error) => ParseOfHex(Code(error), U16_SIZE);
    case _ =>
  }

  /** Responses with the same text are the same response, down to the error. */
  lemma TextIsInjective(r: Protocol.Response, s: Protocol.Response)
    requires Encoder.Text(r) == Encoder.Text(s)
    ensures r == s
  {
    hide Encoder.Text, Code, ParseResponse;
    ParseOfText(r);
    ParseOfText(s);
    if r.ErrorResponse? {
      CodeIsInjective(r.error, s.error);
    }
  }
}
