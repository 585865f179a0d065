/** The language of request lines, defined without the decoder, and the proof that the decoder accepts exactly it. */
module Grammar {
  import opened Common
  import opened Errors
  import opened Protocol
  import opened Numbers
  import opened Decoder
  import opened Requests

  // ----- the language -----

  predicate IsTokenChar(c: char) {
    IsDecimalDigit(c) || c == '_'
  }

  /** Digits, with underscores anywhere. The empty token is one too. */
  predicate IsToken(t: string) {
    forall i | 0 <= i < |t| :: IsTokenChar(t[i])
  }

  function Digits(t: string): (d: string)
    requires IsToken(t)
    ensures AllDecimal(d)
  {
    if t == [] then ""
    else Digits(t[..|t| - 1]) + if t[|t| - 1] == '_' then "" else [t[|t| - 1]]
  }

  function TokenValue(t: string): nat
    requires IsToken(t)
  {
    Numbers.Number(Digits(t))
  }

  function Values(tokens: seq<string>): (values: seq<nat>)
    requires forall t | t in tokens :: IsToken(t)
    ensures |values| == |tokens| && forall i | 0 <= i < |tokens| :: values[i] == TokenValue(tokens[i])
  {
    seq(|tokens|, i requires 0 <= i < |tokens| => TokenValue(tokens[i]))
  }

  /** Tokens, each closed by one space. */
  function Closed(tokens: seq<string>): string {
    if tokens == [] then "" else tokens[0] + " " + Closed(tokens[1..])
  }

  /** A command byte and its tokens; a command without arguments is closed by a space of its own. */
  function Line(kind: char, tokens: seq<string>): string {
    [kind] + if tokens == [] then " " else Closed(tokens)
  }

  /** As many tokens as the command wants, each with a value that its field can hold. */
  predicate WellFormed(kind: char, tokens: seq<string>) {
    && IsCommand(kind) && |tokens| == Arity(kind)
    && (forall t | t in tokens :: IsToken(t))
    && Fits(kind, Values(tokens))
  }

  // ----- reading a token -----

  /** The value of an integer worth `v` after more token characters. */
  function ValueFrom(v: nat, t: string): (w: nat)
    requires IsToken(t)
  {
    if t == [] then v
    else
      var w := ValueFrom(v, t[..|t| - 1]);
      if t[|t| - 1] == '_' then w else 10 * w + DecimalValue(t[|t| - 1])
  }

  lemma {:induction false} ValueFromZero(t: string)
    requires IsToken(t)
    ensures ValueFrom(0, t) == TokenValue(t)
    decreases |t|
  {
    if t != [] {
      var n := |t| - 1;
      ValueFromZero(t[..n]);
      if t[n] == '_' {
        assert Digits(t) == Digits(t[..n]);
      } else {
        assert Digits(t)[..|Digits(t)| - 1] == Digits(t[..n]);
      }
    }
  }

  function After(v: nat, c: char): nat
    requires IsTokenChar(c)
  {
    if c == '_' then v else 10 * v + DecimalValue(c)
  }

  lemma {:induction false} ValueFromHead(v: nat, t: string)
    requires IsToken(t) && t != []
    ensures ValueFrom(v, t) == ValueFrom(After(v, t[0]), t[1..])
    decreases |t|
  {
    var n := |t| - 1;
    if n == 0 {
      assert t[..0] == [] && t[1..] == [];
    } else {
      ValueFromHead(v, t[..n]);
      assert t[..n][1..] == t[1..][..n - 1];
    }
  }

  lemma {:induction false} ValueGrows(v: nat, t: string)
    requires IsToken(t)
    ensures v <= ValueFrom(v, t)
    decreases |t|
  {
    if t != [] {
      ValueGrows(v, t[..|t| - 1]);
    }
  }

  /** A token whose value fits is read to its closing space. */
  lemma {:induction false} RunToken(p: Progress, t: string, rest: string)
    requires Sound(p) && p.Arguments? && Arity(p.kind) > 0 && IsToken(t)
    requires ValueFrom(p.value, t) < Limit(p.kind, |p.done|)
    ensures Fits(p.kind, p.done + [ValueFrom(p.value, t)])
    ensures Run(p, t + " " + rest) == Run(NextArgument(p.kind, p.done + [ValueFrom(p.value, t)]), rest)
    decreases |t|
  {
    var s := t + " " + rest;
    assert forall i | 0 <= i < |p.done| :: p.done[i] == (p.done + [p.value])[i];
    if t == [] {
      assert s[1..] == rest;
    } else {
      ValueFromHead(p.value, t);
      ValueGrows(After(p.value, t[0]), t[1..]);
      assert s[1..] == t[1..] + " " + rest;
      RunToken(p.(value := After(p.value, t[0])), t[1..], rest);
    }
  }

  /** A token whose value does not fit is refused, whatever follows. */
  lemma {:induction false} RunTooLarge(p: Progress, t: string, rest: string)
    requires Sound(p) && p.Arguments? && Arity(p.kind) > 0 && IsToken(t)
    requires ValueFrom(p.value, t) >= Limit(p.kind, |p.done|)
    ensures Run(p, t + rest) == Err(IntegerOverflow)
    decreases |t|
  {
    assert p.value == (p.done + [p.value])[|p.done|];
    ValueFromHead(p.value, t);
    assert (t + rest)[1..] == t[1..] + rest;
    if After(p.value, t[0]) < Limit(p.kind, |p.done|) {
      RunTooLarge(p.(value := After(p.value, t[0])), t[1..], rest);
    }
  }

  lemma RunFinished(kind: char, done: seq<nat>, rest: string)
    requires Sound(Finished(kind, done))
    ensures Run(Finished(kind, done), rest) == Ok((Finished(kind, done), rest))
  {}

  lemma {:induction false} RunTokens(kind: char, done: seq<nat>, tokens: seq<string>, rest: string)
    requires IsCommand(kind) && Sound(Arguments(kind, done, 0)) && tokens != []
    requires |done| + |tokens| == Arity(kind) && forall t | t in tokens :: IsToken(t)
    requires Fits(kind, done + Values(tokens))
    ensures Run(Arguments(kind, done, 0), Closed(tokens) + rest) == Ok((Finished(kind, done + Values(tokens)), rest))
    decreases |tokens|
  {
    hide Run, Limit, Digits, IsToken;
    var t, more := tokens[0], tokens[1..];
    FirstText(tokens, rest);
    FirstValue(done, tokens);
    hide Closed, Values;
    ValueFromZero(t);
    var done' := done + [TokenValue(t)];
    RunToken(Arguments(kind, done, 0), t, Closed(more) + rest);
    if more == [] {
      RunFinished(kind, done', rest);
    } else {
      RunTokens(kind, done', more, rest);
    }
  }

  lemma FirstText(tokens: seq<string>, rest: string)
    requires tokens != []
    ensures Closed(tokens) + rest == tokens[0] + " " + (Closed(tokens[1..]) + rest)
    ensures |tokens| == 1 ==> Closed(tokens[1..]) + rest == rest
  {
    var head, text := tokens[0] + " ", Closed(tokens[1..]);
    assert Closed(tokens) == head + text;
    assert |tokens| == 1 ==> text == "";
    hide Closed;
    Associates(head, text, rest);
  }

  lemma FirstOfValues(tokens: seq<string>)
    requires tokens != [] && forall t | t in tokens :: IsToken(t)
    ensures forall t | t in tokens[1..] :: IsToken(t)
    ensures Values(tokens) == [TokenValue(tokens[0])] + Values(tokens[1..])
  {
    hide IsToken, TokenValue;
  }

  lemma FirstValue(done: seq<nat>, tokens: seq<string>)
    requires tokens != [] && forall t | t in tokens :: IsToken(t)
    ensures forall t | t in tokens[1..] :: IsToken(t)
    ensures var done' := done + [TokenValue(tokens[0])];
            && done' + Values(tokens[1..]) == done + Values(tokens)
            && (|tokens| == 1 ==> done' == done + Values(tokens))
    ensures (done + Values(tokens))[|done|] == TokenValue(tokens[0])
  {
    FirstOfValues(tokens);
    hide IsToken, TokenValue, Values;
    Associates(done, [TokenValue(tokens[0])], Values(tokens[1..]));
  }

  /** Every line of the language decodes to the request with the values of its tokens. */
  lemma DecodeOfLine(kind: char, tokens: seq<string>)
    requires WellFormed(kind, tokens)
    ensures Decode(Line(kind, tokens)) == Ok(RequestOf(kind, Values(tokens)))
  {
    var line := Line(kind, tokens);
    assert Take(Start, kind) == Ok(Arguments(kind, [], 0));
    if tokens == [] {
      assert line[1..] == " " && " "[1..] == "";
      assert Run(Arguments(kind, [], 0), " ") == Run(Finished(kind, []), "");
      assert Values(tokens) == [];
    } else {
      assert line[1..] == Closed(tokens) + "";
      assert [] + Values(tokens) == Values(tokens);
      RunTokens(kind, [], tokens, "");
    }
  }

  /** The values a run adds when the first token it reads continues an integer worth `v`. */
  function ValuesFrom(v: nat, tokens: seq<string>): seq<nat>
    requires tokens != [] && forall t | t in tokens :: IsToken(t)
  {
    [ValueFrom(v, tokens[0])] + Values(tokens[1..])
  }

  lemma ValuesFromZero(tokens: seq<string>)
    requires tokens != [] && forall t | t in tokens :: IsToken(t)
    ensures ValuesFrom(0, tokens) == Values(tokens)
  {
    ValueFromZero(tokens[0]);
  }

  lemma SpaceBefore(v: nat, tokens: seq<string>)
    requires forall t | t in tokens :: IsToken(t)
    ensures Closed([""] + tokens) == " " + Closed(tokens)
    ensures ValuesFrom(v, [""] + tokens) == [v] + Values(tokens)
  {
    assert ([""] + tokens)[1..] == tokens;
  }

  /** The tokens whose first one begins with one more character. */
  function Longer(c: char, tokens: seq<string>): (longer: seq<string>)
    requires tokens != []
    ensures longer != []
  {
    [[c] + tokens[0]] + tokens[1..]
  }

  lemma LongerIsTokens(c: char, tokens: seq<string>)
    requires IsTokenChar(c) && tokens != [] && forall t | t in tokens :: IsToken(t)
    ensures forall t | t in Longer(c, tokens) :: IsToken(t)
  {
    assert IsToken(tokens[0]);
    assert forall t | t in tokens[1..] :: t in tokens;
    OneMoreChar(c, tokens[0]);
    hide IsToken, IsTokenChar;
  }

  lemma OneMoreChar(c: char, t: string)
    requires IsTokenChar(c) && IsToken(t)
    ensures IsToken([c] + t)
  {}

  lemma CharBefore(v: nat, c: char, tokens: seq<string>)
    requires IsTokenChar(c) && tokens != [] && forall t | t in tokens :: IsToken(t)
    ensures forall t | t in Longer(c, tokens) :: IsToken(t)
    ensures Closed(Longer(c, tokens)) == [c] + Closed(tokens)
    ensures ValuesFrom(v, Longer(c, tokens)) == ValuesFrom(After(v, c), tokens)
  {
    LongerIsTokens(c, tokens);
    var t := [c] + tokens[0];
    assert Longer(c, tokens)[0] == t && Longer(c, tokens)[1..] == tokens[1..];
    assert t[1..] == tokens[0];
    assert IsToken(t);
    ValueFromHead(v, t);
    ClosedOfLonger(c, tokens);
    hide IsToken, IsTokenChar, After, ValueFrom, TokenValue, Longer, Closed;
  }

  lemma ClosedOfLonger(c: char, tokens: seq<string>)
    requires tokens != []
    ensures Closed(Longer(c, tokens)) == [c] + Closed(tokens)
  {
    assert Longer(c, tokens)[1..] == tokens[1..];
    Associates([c], tokens[0], " ");
    Associates([c], tokens[0] + " ", Closed(tokens[1..]));
  }

  /** What a run over arguments has read when it finishes. */
  lemma {:induction false} FinishedRunIsTokens(p: Progress, bytes: string) returns (tokens: seq<string>)
    requires Sound(p) && p.Arguments? && Arity(p.kind) > 0
    requires Run(p, bytes).Ok? && Run(p, bytes).value.0.Finished?
    ensures tokens != [] && forall t | t in tokens :: IsToken(t)
    ensures bytes == Closed(tokens) + Run(p, bytes).value.1
    ensures Run(p, bytes).value.0 == Finished(p.kind, p.done + ValuesFrom(p.value, tokens))
    decreases |bytes|
  {
    hide Closed, ValuesFrom, Limit, Fits, IsToken, Longer, Values;
    var c := bytes[0];
    var p' := Take(p, c).value;
    assert bytes == [c] + bytes[1..];
    NoTokens();
    if c != ' ' {
      var more := FinishedRunIsTokens(p', bytes[1..]);
      CharBefore(p.value, c, more);
      tokens := Longer(c, more);
    } else if p'.Arguments? {
      var more := FinishedRunIsTokens(p', bytes[1..]);
      ValuesFromZero(more);
      SpaceBefore(p.value, more);
      tokens := [""] + more;
      assert p'.done + Values(more) == p.done + ([p.value] + Values(more));
    } else {
      SpaceBefore(p.value, []);
      tokens := [""] + [];
    }
  }

  lemma NoTokens()
    ensures Closed([]) == "" && Values([]) == [] && IsToken("")
  {}

  /** After an argumentless command, only a single space finishes. */
  lemma OpenOrSpace(kind: char, tail: string)
    requires IsCommand(kind) && Arity(kind) == 0
    ensures var end := Run(Arguments(kind, [], 0), tail);
            end.Ok? && end.value.0.Finished? && end.value.1 == [] ==> tail == " " && end.value.0 == Finished(kind, [])
  {
    if tail != [] && tail[0] == ' ' {
      RunFinished(kind, [], tail[1..]);
      assert tail == [tail[0]] + tail[1..];
    }
  }

  lemma ArgumentsAreLine(kind: char, tail: string) returns (tokens: seq<string>)
    requires IsCommand(kind) && Arity(kind) > 0
    requires Run(Arguments(kind, [], 0), tail).Ok?
    requires var end := Run(Arguments(kind, [], 0), tail).value; end.0.Finished? && end.1 == []
    ensures WellFormed(kind, tokens) && [kind] + tail == Line(kind, tokens)
    ensures Run(Arguments(kind, [], 0), tail).value.0 == Finished(kind, Values(tokens))
  {
    tokens := FinishedRunIsTokens(Arguments(kind, [], 0), tail);
    hide Run, Closed, IsToken, ValuesFrom, Limit;
    ValuesFromZero(tokens);
    assert [] + Values(tokens) == Values(tokens);
    assert tail == Closed(tokens) + "" == Closed(tokens);
  }

  /** Everything the decoder accepts is a line of the language. */
  lemma DecodedIsLine(bytes: string) returns (tokens: seq<string>)
    requires Decode(bytes).Ok?
    ensures Reads(bytes, tokens, Decode(bytes).value)
  {
    var kind := bytes[0];
    assert Take(Start, kind) == Ok(Arguments(kind, [], 0));
    assert bytes == [kind] + bytes[1..];
    assert Run(Start, bytes) == Run(Arguments(kind, [], 0), bytes[1..]);
    hide Run, Take, Fits, RequestOf;
    if Arity(kind) == 0 {
      tokens := [];
      OpenOrSpace(kind, bytes[1..]);
      NoTokens();
    } else {
      tokens := ArgumentsAreLine(kind, bytes[1..]);
    }
    hide Closed, IsToken;
  }

  ghost predicate Reads(bytes: string, tokens: seq<string>, request: Request) {
    && bytes != [] && WellFormed(bytes[0], tokens)
    && bytes == Line(bytes[0], tokens) && request == RequestOf(bytes[0], Values(tokens))
  }

  /** The decoder accepts exactly the language, with exactly its meaning. */
  lemma DecoderIsExact(bytes: string, request: Request)
    ensures Decode(bytes) == Ok(request) <==> exists tokens: seq<string> :: Reads(bytes, tokens, request)
  {
    if Decode(bytes) == Ok(request) {
      var tokens := DecodedIsLine(bytes);
      assert Reads(bytes, tokens, request);
    }
    forall tokens: seq<string> | Reads(bytes, tokens, request) ensures Decode(bytes) == Ok(request) {
      DecodeOfLine(bytes[0], tokens);
    }
  }

  // ----- what is refused, and why -----

  /** A run that fails has read everything before the byte it fails at. */
  lemma {:induction false} RunFailsAt(p: Progress, bytes: string) returns (i: nat)
    requires Sound(p) && Run(p, bytes).Err?
    ensures i < |bytes| && Run(p, bytes[..i]).Ok? && Run(p, bytes[..i]).value.1 == []
    ensures var q := Run(p, bytes[..i]).value.0; !q.Finished? && Take(q, bytes[i]) == Err(Run(p, bytes).error)
    decreases |bytes|
  {
    hide Take, Sound;
    var taken := Take(p, bytes[0]);
    if taken.Err? {
      i := 0;
      assert bytes[..0] == [];
    } else {
      var j := RunFailsAt(taken.value, bytes[1..]);
      i := j + 1;
      assert bytes[..i][1..] == bytes[1..][..j] && bytes[..i][0] == bytes[0];
    }
  }

  /** A run keeps its command. */
  lemma {:induction false} RunKeepsKind(p: Progress, bytes: string)
    requires Sound(p) && !p.Start? && Run(p, bytes).Ok?
    ensures var q := Run(p, bytes).value.0; !q.Start? && q.kind == p.kind
    ensures Arity(p.kind) == 0 && bytes != [] ==> Run(p, bytes).value.0.Finished?
    decreases |bytes|
  {
    if bytes != [] && !p.Finished? {
      RunKeepsKind(Take(p, bytes[0]).value, bytes[1..]);
    }
  }

  /** What the machine has made of a beginning that it is not done with. */
  lemma BeginningIsRead(bytes: string)
    requires Run(Start, bytes).Ok? && !Run(Start, bytes).value.0.Finished?
    ensures var q := Run(Start, bytes).value.0;
            if bytes == [] then q.Start?
            else q.Arguments? && q.kind == bytes[0] && IsCommand(bytes[0]) && (Arity(bytes[0]) == 0 ==> |bytes| == 1)
  {
    if bytes != [] {
      RunKeepsKind(Take(Start, bytes[0]).value, bytes[1..]);
    }
  }

  /**
   The first byte that a request cannot have, and how it is objected to: an unknown command, something other than the end
   after a command without arguments, a character no integer has, or a digit that takes an integer past its field.
   Everything before that byte is read without objection.
   */
  lemma FirstBadByte(bytes: string) returns (i: nat)
    requires bytes != [] && Decode(bytes).Err?
    requires Decode(bytes).error != ArgumentsMissing && Decode(bytes).error != RequestMalformed
    ensures i < |bytes|
    ensures i > 0 ==> Decode(bytes[..i]).Ok? || Decode(bytes[..i]).error in {ArgumentsMissing, RequestMalformed}
    ensures Decode(bytes).error
            == if i == 0 then InvalidCommand
               else if bytes[0] in {';', '#', '.'} then ExpectedNewLine
               else if '0' <= bytes[i] <= '9' then IntegerOverflow
               else InvalidInteger
    ensures i == 0 ==> bytes[0] !in {';', '+', '%', '?', '#', '=', '.'}
    ensures i > 0 ==> bytes[0] in {';', '+', '%', '?', '#', '=', '.'}
    ensures i > 0 && bytes[0] in {';', '#', '.'} ==> i == 1 && bytes[1] != ' '
    ensures i > 0 && bytes[0] !in {';', '#', '.'} ==> bytes[i] != ' ' && bytes[i] != '_'
  {
    i := RunFailsAt(Start, bytes);
    BeginningIsRead(bytes[..i]);
    hide Run, RequestOf;
    var q := Run(Start, bytes[..i]).value.0;
    if i > 0 {
      assert bytes[..i][0] == bytes[0];
    }
  }

  /** "Empty" is said exactly of nothing. */
  lemma EmptyMeansNothing(bytes: string)
    ensures Decode(bytes) == Err(RequestEmpty) <==> bytes == []
  {
    if bytes != [] && Decode(bytes) == Err(RequestEmpty) {
      var i := FirstBadByte(bytes);
      assert false;
    }
  }

  // ----- the driver's lines -----

  lemma {:induction false} DigitsOfDecimal(s: string)
    requires AllDecimal(s)
    ensures IsToken(s) && Digits(s) == s
    decreases |s|
  {
    if s != [] {
      DigitsOfDecimal(s[..|s| - 1]);
      assert s == s[..|s| - 1] + [s[|s| - 1]];
    }
  }

  lemma DecimalIsToken(n: nat)
    ensures IsToken(Decimal(n)) && TokenValue(Decimal(n)) == n
  {
    NumberOfDecimal(n);
    DigitsOfDecimal(Decimal(n));
  }

  function CommandByte(c: Command): (kind: char)
    ensures IsCommand(kind)
  {
    KindOf(Meaning(c))
  }

  /** The decimal texts of the fields, in order. */
  function Texts(values: seq<nat>): (tokens: seq<string>)
    ensures |tokens| == |values| && forall i | 0 <= i < |values| :: tokens[i] == Decimal(values[i])
  {
    seq(|values|, i requires 0 <= i < |values| => Decimal(values[i]))
  }

  lemma TextsAreTokens(values: seq<nat>)
    ensures (forall t | t in Texts(values) :: IsToken(t)) && Values(Texts(values)) == values
  {
    hide Decimal, IsToken, TokenValue;
    forall i | 0 <= i < |values| ensures IsToken(Texts(values)[i]) && TokenValue(Texts(values)[i]) == values[i] {
      DecimalIsToken(values[i]);
    }
  }

  lemma ClosedOne(a: string)
    ensures Closed([a]) == a + " "
  {}

  lemma ClosedMore(a: string, more: seq<string>)
    ensures Closed([a] + more) == a + " " + Closed(more)
  {
    assert ([a] + more)[1..] == more;
  }

  lemma ClosedThree(k: string, a: string, b: string, c: string)
    ensures k + a + " " + b + " " + c + " " == k + Closed([a, b, c])
  {
    ClosedOne(c);
    ClosedMore(b, [c]);
    ClosedMore(a, [b] + [c]);
    hide Closed;
    assert [a] + ([b] + [c]) == [a, b, c];
  }

  lemma ClosedFour(k: string, a: string, b: string, c: string, d: string)
    ensures k + a + " " + b + " " + c + " " + d + " " == k + Closed([a, b, c, d])
  {
    ClosedThree("", b, c, d);
    ClosedMore(a, [b, c, d]);
    hide Closed;
    assert [a] + [b, c, d] == [a, b, c, d];
    assert "" + b == b;
    assert Closed([b, c, d]) == b + " " + c + " " + d + " ";
  }

  /** With its newline turned into a space, an encoded request is a line of the language. */
  lemma BodyIsLine(c: Command)
    ensures Body(c) + " " == Line(CommandByte(c), Texts(Fields(Meaning(c))))
  {
    var t := Texts(Fields(Meaning(c)));
    hide Decimal, Closed;
    match c
    case AddAccount(walId, credits, debits, flags) =>
      assert t == [Decimal(walId), Amount(credits), Amount(debits), Decimal(flags)];
      ClosedFour([CommandByte(c)], t[0], t[1], t[2], t[3]);
    case MakeTransfer(walId, fromId, toId, amount) =>
      assert t == [Decimal(walId), Decimal(fromId), Decimal(toId), Amount(amount)];
      ClosedFour([CommandByte(c)], t[0], t[1], t[2], t[3]);
    case GetAccount(accountId) =>
      assert t == [Decimal(accountId)];
      ClosedOne(t[0]);
    case UpdateAccount(walId, accountId, flags) =>
      assert t == [Decimal(walId), Decimal(accountId), Decimal(flags)];
      ClosedThree([CommandByte(c)], t[0], t[1], t[2]);
    case _ =>
  }

  /** The server decodes every request the driver can encode to the request it means. */
  lemma DecodeOfEncoded(c: Command)
    ensures Decode(Body(c) + " ") == Ok(Meaning(c))
  {
    hide Decode, Line, Body, Texts, Values, IsToken;
    BodyIsLine(c);
    TextsAreTokens(Fields(Meaning(c)));
    DecodeOfLine(CommandByte(c), Texts(Fields(Meaning(c))));
  }

  // ----- what the errors mean -----

  /** Reading on: a run over a longer buffer continues the run over the shorter one. */
  lemma {:induction false} RunAppend(p: Progress, a: string, b: string)
    requires Sound(p)
    ensures Run(p, a).Err? ==> Run(p, a + b) == Run(p, a)
    ensures Run(p, a).Ok? && !Run(p, a).value.0.Finished? ==> Run(p, a + b) == Run(Run(p, a).value.0, b)
    ensures Run(p, a).Ok? && Run(p, a).value.0.Finished? ==>
              Run(p, a + b) == Ok((Run(p, a).value.0, Run(p, a).value.1 + b))
    decreases |a|
  {
    if p.Finished? {
    } else if a == [] {
      assert a + b == b;
    } else {
      assert (a + b)[1..] == a[1..] + b;
      if Take(p, a[0]).Ok? {
        RunAppend(Take(p, a[0]).value, a[1..], b);
      }
    }
  }

  function Spaces(n: nat): string {
    seq(n, _ => ' ')
  }

  /** From anywhere inside the arguments, spaces for the missing ones complete the request. */
  lemma {:induction false} SpacesComplete(p: Progress)
    requires Sound(p) && p.Arguments? && Arity(p.kind) > 0
    ensures Run(p, Spaces(Arity(p.kind) - |p.done|)).Ok?
    ensures var end := Run(p, Spaces(Arity(p.kind) - |p.done|)).value; end.0.Finished? && end.1 == []
    decreases Arity(p.kind) - |p.done|
  {
    var n := Arity(p.kind) - |p.done|;
    assert Spaces(n)[1..] == Spaces(n - 1);
    var after := Take(p, ' ').value;
    if after.Arguments? {
      SpacesComplete(after);
    }
  }

  /** "Arguments missing" is said exactly of the beginnings of requests whose command byte is there. */
  lemma MissingMeansBeginning(bytes: string)
    ensures Decode(bytes) == Err(ArgumentsMissing) <==>
              && bytes != [] && Arity(bytes[0]) > 0
              && Decode(bytes).Err?
              && exists more: string :: Decode(bytes + more).Ok?
  {
    if bytes != [] {
      var end := Run(Start, bytes);
      if Decode(bytes) == Err(ArgumentsMissing) {
        var p := end.value.0;
        var more := Spaces(Arity(p.kind) - |p.done|);
        SpacesComplete(p);
        RunAppend(Start, bytes, more);
        assert Decode(bytes + more).Ok?;
        KindIsFirst(bytes);
      }
      forall more: string | Decode(bytes + more).Ok? && Decode(bytes).Err? && Arity(bytes[0]) > 0
        ensures Decode(bytes) == Err(ArgumentsMissing)
      {
        RunAppend(Start, bytes, more);
        KindIsFirst(bytes);
      }
    }
  }

  lemma {:induction false} KindStays(p: Progress, bytes: string)
    requires Sound(p) && !p.Start? && Run(p, bytes).Ok?
    ensures !Run(p, bytes).value.0.Start? && Run(p, bytes).value.0.kind == p.kind
    decreases |bytes|
  {
    if bytes != [] && p.Arguments? {
      KindStays(Take(p, bytes[0]).value, bytes[1..]);
    }
  }

  lemma KindIsFirst(bytes: string)
    requires bytes != [] && Run(Start, bytes).Ok?
    ensures !Run(Start, bytes).value.0.Start? && Run(Start, bytes).value.0.kind == bytes[0]
  {
    KindStays(Take(Start, bytes[0]).value, bytes[1..]);
  }

  /** "Malformed" is said exactly of a request with something after it, and of an argumentless command left open. */
  lemma MalformedMeansMore(bytes: string)
    ensures Decode(bytes) == Err(RequestMalformed) <==>
              || (exists k | 0 < k < |bytes| :: Decode(bytes[..k]).Ok?)
              || (|bytes| == 1 && IsCommand(bytes[0]) && Arity(bytes[0]) == 0)
  {
    if bytes != [] && IsCommand(bytes[0]) {
      assert Run(Start, bytes) == Run(Arguments(bytes[0], [], 0), bytes[1..]);
    }
    if bytes != [] && Run(Start, bytes).Ok? {
      var (p, rest) := Run(Start, bytes).value;
      if p.Finished? && rest != [] {
        var k := FinishedAt(Start, bytes);
        assert Decode(bytes[..k]).Ok?;
      }
      if !p.Finished? {
        OpenCommand(bytes);
      }
    }
    forall k | 0 < k < |bytes| && Decode(bytes[..k]).Ok? ensures Decode(bytes) == Err(RequestMalformed) {
      RunAppend(Start, bytes[..k], bytes[k..]);
      assert bytes == bytes[..k] + bytes[k..];
    }
  }

  /** Where a run finished, it would also have finished on the bytes up to there. */
  lemma {:induction false} FinishedAt(p: Progress, bytes: string) returns (k: nat)
    requires Sound(p) && !p.Finished? && Run(p, bytes).Ok? && Run(p, bytes).value.0.Finished?
    ensures 0 < k <= |bytes| && bytes[k..] == Run(p, bytes).value.1
    ensures Run(p, bytes[..k]) == Ok((Run(p, bytes).value.0, ""))
    decreases |bytes|
  {
    var after := Take(p, bytes[0]).value;
    if after.Finished? {
      k := 1;
      assert bytes[..1][1..] == "";
    } else {
      var j := FinishedAt(after, bytes[1..]);
      k := j + 1;
      assert bytes[..k][1..] == bytes[1..][..j];
    }
  }

  /** An argumentless command is left open only by the command byte alone. */
  lemma OpenCommand(bytes: string)
    requires bytes != [] && Run(Start, bytes).Ok? && !Run(Start, bytes).value.0.Finished?
    ensures Arity(bytes[0]) == 0 ==> |bytes| == 1
    ensures IsCommand(bytes[0]) && Run(Start, bytes).value.0.Arguments? && Run(Start, bytes).value.0.kind == bytes[0]
  {
    KindIsFirst(bytes);
    var tail := bytes[1..];
    var p := Take(Start, bytes[0]).value;
    assert Run(Start, bytes) == Run(p, tail);
    if Arity(bytes[0]) == 0 && tail != [] {
      RunFinished(bytes[0], [], tail[1..]);
    }
  }
}
