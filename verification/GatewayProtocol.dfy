/**
 The text protocol between a gateway and its controller: a message is printed as a line of fields between
 semicolons, and a line is parsed into a message.
 */
module GatewayProtocolSpec {
  import opened Words

  const MAX_PAYLOAD: nat := 25
  const MAX_SEND_LENGTH: nat := 120
  const C_STREAM: byte := 4
  const GATEWAY_ADDRESS: byte := 0

  /** The payload with its type; a text may hold a NUL, at which C takes it to end. */
  datatype Payload =
    | Text(text: string)
    | Custom(bytes: seq<byte>)
    | Byte(u8: byte)
    | Int16(i16: int)
    | Uint16(u16: int)
    | Long32(i32: int)
    | Ulong32(u32: int)
  {
    predicate Valid() {
      match this
      case Text(text) => |text| <= MAX_PAYLOAD
      case Custom(bytes) => |bytes| <= MAX_PAYLOAD
      case Byte(_) => true
      case Int16(v) => -0x8000 <= v < 0x8000
      case Uint16(v) => 0 <= v < 0x1_0000
      case Long32(v) => -0x8000_0000 <= v < 0x8000_0000
      case Ulong32(v) => 0 <= v < 0x1_0000_0000
    }
  }

  /** The fields of a message that the protocol reads or writes. */
  datatype Message = Message(last: byte, sender: byte, destination: byte, sensor: byte, command: byte, kind: byte,
                             requestAck: bool, ack: bool, payload: Payload)

  predicate Valid(m: Message) {
    m.command < 8 && m.payload.Valid()
  }

  // ----- Numbers as text -----

  function Digit(d: nat): char
    requires d < 10
  {
    '0' + d as char
  }

  function Decimal(n: nat): (s: string)
    ensures |s| > 0
  {
    if n < 10 then [Digit(n)] else Decimal(n / 10) + [Digit(n % 10)]
  }

  /** itoa, ltoa and %d. */
  function Printed(v: int): string {
    if v < 0 then "-" + Decimal(-v) else Decimal(v)
  }

  predicate IsDigit(c: char) {
    '0' <= c <= '9'
  }

  function DigitSpan(s: string): (k: nat)
    ensures k <= |s|
  {
    if s == "" || !IsDigit(s[0]) then 0 else 1 + DigitSpan(s[1..])
  }

  function DigitValue(c: char): nat
    requires IsDigit(c)
  {
    c as int - '0' as int
  }

  function ValueOf(digits: string): nat
    requires forall i :: 0 <= i < |digits| ==> IsDigit(digits[i])
  {
    if digits == "" then 0 else 10 * ValueOf(digits[..|digits| - 1]) + DigitValue(digits[|digits| - 1])
  }

  lemma {:induction false} SpanIsDigits(s: string)
    ensures forall i :: 0 <= i < DigitSpan(s) ==> IsDigit(s[i])
  {
    if s != "" && IsDigit(s[0]) { SpanIsDigits(s[1..]); }
  }

  function LeadingNumber(s: string): nat {
    SpanIsDigits(s);
    ValueOf(s[..DigitSpan(s)])
  }

  function SkipSpaces(s: string): string {
    if s != "" && (s[0] == ' ' || '\t' <= s[0] <= '\r') then SkipSpaces(s[1..]) else s
  }

  /** atoi and atol where int and long have 32 bits: what does not fit becomes the nearest number that does. */
  function Clamped(v: int): int {
    if v < -0x8000_0000 then -0x8000_0000 else if v > 0x7FFF_FFFF then 0x7FFF_FFFF else v
  }

  function Atoi(s: string): int {
    var t := SkipSpaces(s);
    if t != "" && t[0] == '-' then Clamped(-(LeadingNumber(t[1..]) as int))
    else if t != "" && t[0] == '+' then Clamped(LeadingNumber(t[1..]))
    else Clamped(LeadingNumber(t))
  }

  lemma {:induction false} AllDigitsSpan(s: string)
    requires forall i :: 0 <= i < |s| ==> IsDigit(s[i])
    ensures DigitSpan(s) == |s|
  {
    if s != "" { AllDigitsSpan(s[1..]); }
  }

  lemma {:induction false} DecimalIsNumber(n: nat)
    ensures forall i :: 0 <= i < |Decimal(n)| ==> IsDigit(Decimal(n)[i])
    ensures ValueOf(Decimal(n)) == n
  {
    if n >= 10 {
      DecimalIsNumber(n / 10);
      var s := Decimal(n);
      assert s[..|s| - 1] == Decimal(n / 10);
    } else {
      assert Decimal(n)[..0] == "";
    }
  }

  lemma LeadingNumberOfDecimal(n: nat)
    ensures LeadingNumber(Decimal(n)) == n && IsDigit(Decimal(n)[0])
  {
    DecimalIsNumber(n);
    AllDigitsSpan(Decimal(n));
    assert Decimal(n)[..|Decimal(n)|] == Decimal(n);
  }

  /** Reading undoes printing for every number of 32 bits, and larger ones come back as the largest. */
  lemma AtoiOfPrinted(v: int)
    ensures Atoi(Printed(v)) == Clamped(v)
  {
    var n := if v < 0 then -v else v;
    LeadingNumberOfDecimal(n);
    hide Decimal, LeadingNumber, Clamped;
    if v < 0 { assert Printed(v)[1..] == Decimal(n) && Printed(v)[0] == '-'; }
    assert SkipSpaces(Printed(v)) == Printed(v);
  }

  // ----- Bytes as hexadecimal text -----

  function I2h(i: byte): char {
    var k := i % 16;
    if k <= 9 then '0' + k as char else 'A' + (k - 10) as char
  }

  /** protocolH2i, in eight bits. */
  function H2i(c: char): byte {
    if c <= '9' then U8(c as int - '0' as int)
    else if c >= 'a' then U8(c as int - 'a' as int + 10)
    else U8(c as int - 'A' as int + 10)
  }

  lemma HexDigit(i: byte)
    ensures H2i(I2h(i)) == i % 16 && I2h(i) != ';'
  {
  }

  function HexText(bytes: seq<byte>): (s: string)
    ensures |s| == 2 * |bytes|
  {
    if bytes == [] then ""
    else HexText(bytes[..|bytes| - 1]) + [I2h(bytes[|bytes| - 1] / 16), I2h(bytes[|bytes| - 1])]
  }

  function HexByte(high: char, low: char): byte {
    U8(U8(H2i(high) * 16) as int + H2i(low))
  }

  function HexBytes(s: string): (bytes: seq<byte>)
    ensures |bytes| == |s| / 2
  {
    if |s| < 2 then [] else HexBytes(s[..|s| - 2]) + [HexByte(s[|s| - 2], s[|s| - 1])]
  }

  lemma HexByteBack(b: byte)
    ensures HexByte(I2h(b / 16), I2h(b)) == b
  {
    hide I2h, H2i, U8;
    HexDigit(b / 16);
    HexDigit(b);
    HalvesJoin(b, H2i(I2h(b / 16)), H2i(I2h(b)));
  }

  lemma HalvesJoin(b: byte, high: int, low: int)
    requires high == b / 16 % 16 && low == b % 16
    ensures U8(U8(high * 16) as int + low) == b
  {
    assert b / 16 < 16 && high == b / 16;
  }

  lemma {:induction false} HexBytesOfText(bytes: seq<byte>)
    ensures HexBytes(HexText(bytes)) == bytes
    ensures ';' !in HexText(bytes)
  {
    if bytes != [] {
      var k := |bytes| - 1;
      var s := HexText(bytes);
      HexBytesOfText(bytes[..k]);
      HexDigit(bytes[k] / 16);
      HexDigit(bytes[k]);
      HexByteBack(bytes[k]);
      hide I2h, H2i, HexByte;
      var front := HexText(bytes[..k]);
      var tail := [I2h(bytes[k] / 16), I2h(bytes[k])];
      assert s == front + tail;
      assert s[..|s| - 2] == front;
      assert s[|s| - 2] == tail[0] && s[|s| - 1] == tail[1];
      assert bytes == bytes[..k] + [bytes[k]];
      assert ';' !in tail;
    }
  }

  /** The text as far as C reads it. */
  function UpToNul(text: string): (s: string)
    ensures |s| <= |text| && '\0' !in s && (s == text <==> '\0' !in text) && (|s| == |text| ==> s == text)
  {
    if text == "" || text[0] == '\0' then "" else [text[0]] + UpToNul(text[1..])
  }

  /** getString(buffer). */
  function PayloadText(p: Payload): string {
    match p
    case Text(text) => UpToNul(text)
    case Custom(bytes) => HexText(bytes)
    case Byte(v) => Printed(v)
    case Int16(v) => Printed(v)
    case Uint16(v) => Printed(v)
    case Long32(v) => Printed(v)
    case Ulong32(v) => Printed(v)
  }

  // ----- Printing a message -----

  function Field(v: int): string {
    Printed(v) + ";"
  }

  function Format(m: Message): (line: string)
    ensures |line| > 0
  {
    Field(m.sender) + (Field(m.sensor) + (Field(m.command) + (Field(if m.ack then 1 else 0) +
    (Field(m.kind) + PayloadText(m.payload))))) + "\n"
  }

  // ----- Parsing a line -----

  function SkipSeparators(s: string): (t: string)
    ensures |t| <= |s| && (t != "" ==> t[0] != ';')
  {
    if s != "" && s[0] == ';' then SkipSeparators(s[1..]) else s
  }

  /** The length of the text before the first separator. */
  function Span(s: string): (k: nat)
    ensures k <= |s| && (s != "" && s[0] != ';' ==> k > 0) && (k < |s| ==> s[k] == ';')
    ensures forall i :: 0 <= i < k ==> s[i] != ';'
  {
    if s == "" || s[0] == ';' then 0 else 1 + Span(s[1..])
  }

  /** What successive calls of strtok_r return: the pieces between separators, but no empty ones. */
  function Tokens(s: string): seq<string>
    decreases |s|
  {
    var t := SkipSeparators(s);
    if t == "" then [] else [t[..Span(t)]] + Tokens(t[Span(t)..])
  }

  /** A trailing carriage return or newline goes, but not both. The index is kept in a byte. */
  function Stripped(value: string): string
    requires value != ""
  {
    var k := U8(|value| - 1);
    if value[k] == '\r' || value[k] == '\n' then value[..k] else value
  }

  /** The message being filled in, the command as it was read, the number of tokens, and the payload so far. */
  datatype Parser = Parser(message: Message, command: byte, count: nat, value: Option<string>, bytes: seq<byte>)

  function Take(p: Parser, token: string): Parser
    requires token != ""
  {
    var m := p.message;
    var n := Atoi(token);
    var q := p.(count := p.count + 1);
    match p.count
    case 0 => q.(message := m.(destination := U8(n)))
    case 1 => q.(message := m.(sensor := U8(n)))
    case 2 => q.(message := m.(command := U8(n) % 8), command := U8(n))
    case 3 => q.(message := m.(requestAck := n != 0))
    case 4 => q.(message := m.(kind := U8(n)))
    case 5 => if p.command == C_STREAM then q.(bytes := HexBytes(token)) else q.(value := Some(Stripped(token)))
    case _ => p
  }

  function TakeAll(p: Parser, tokens: seq<string>): Parser
    requires forall i :: 0 <= i < |tokens| ==> tokens[i] != ""
    decreases |tokens|
  {
    if tokens == [] || p.count >= 6 then p else TakeAll(Take(p, tokens[0]), tokens[1..])
  }

  lemma {:induction false} TokensAreNotEmpty(s: string)
    ensures forall i :: 0 <= i < |Tokens(s)| ==> IsToken(Tokens(s)[i])
    decreases |s|
  {
    var t := SkipSeparators(s);
    if t != "" { TokensAreNotEmpty(t[Span(t)..]); }
  }

  function Cut<T>(s: seq<T>): (r: seq<T>)
    ensures r == if |s| <= MAX_PAYLOAD then s else s[..MAX_PAYLOAD]
  {
    if |s| <= MAX_PAYLOAD then s else s[..MAX_PAYLOAD]
  }

  function PayloadOf(p: Parser): Payload {
    if p.command == C_STREAM then Custom(Cut(p.bytes))
    else Text(match p.value case Some(text) => Cut(text) case None => "")
  }

  /** What the message becomes, and whether the line is one. */
  function Parsed(m: Message, line: string): (Message, bool) {
    TokensAreNotEmpty(line);
    var p := TakeAll(Parser(m, 0, 0, None, []), Tokens(line));
    if p.count < 5 then (p.message, false)
    else (p.message.(sender := GATEWAY_ADDRESS, last := GATEWAY_ADDRESS, ack := false, payload := PayloadOf(p)), true)
  }

  /** The hexadecimal payload of a stream comes in pairs and fits the buffer for it. */
  predicate HexFits(line: string) {
    var tokens := Tokens(line);
    |tokens| >= 6 && U8(Atoi(tokens[2])) == C_STREAM ==> |tokens[5]| % 2 == 0 && |tokens[5]| <= 2 * MAX_PAYLOAD
  }

  // ----- Parsing undoes printing -----

  predicate IsToken(t: string) {
    t != "" && ';' !in t
  }

  lemma {:induction false} SpanOfToken(t: string, rest: string)
    requires ';' !in t && (rest == "" || rest[0] == ';')
    ensures Span(t + rest) == |t|
    decreases |t|
  {
    if t == "" {
      assert t + rest == rest;
    } else {
      assert (t + rest)[1..] == t[1..] + rest;
      SpanOfToken(t[1..], rest);
    }
  }

  lemma FirstToken(t: string, rest: string)
    requires IsToken(t)
    ensures Tokens(t + ";" + rest) == [t] + Tokens(rest)
    ensures Tokens(t) == [t]
  {
    var s := t + ";" + rest;
    assert s == t + (";" + rest);
    SpanOfToken(t, ";" + rest);
    SpanOfToken(t, "");
    assert t + "" == t;
    assert SkipSeparators(s) == s && s[..|t|] == t && s[|t|..] == ";" + rest;
    assert Tokens(";" + rest) == Tokens(rest) by {
      assert (";" + rest)[1..] == rest;
      assert SkipSeparators(";" + rest) == SkipSeparators(rest);
    }
    assert t[..|t|] == t && t[|t|..] == "";
    assert Tokens("") == [];
  }

  lemma PrintedIsToken(v: int)
    ensures IsToken(Printed(v))
  {
    var n := if v < 0 then -v else v;
    DecimalIsNumber(n);
    var s := Printed(v);
    forall i | 0 <= i < |s|
      ensures s[i] != ';'
    {
      if v < 0 {
        if i > 0 { assert s[i] == Decimal(n)[i - 1]; }
      }
    }
  }

  lemma FieldToken(v: int, rest: string)
    ensures Tokens(Field(v) + rest) == [Printed(v)] + Tokens(rest)
  {
    PrintedIsToken(v);
    FirstToken(Printed(v), rest);
  }

  function Header(m: Message): seq<string> {
    [Printed(m.sender), Printed(m.sensor), Printed(m.command), Printed(if m.ack then 1 else 0), Printed(m.kind)]
  }

  /** The line of a message splits into the five numbers and the pieces of the payload. */
  lemma TokensOfLine(m: Message)
    ensures var line := Format(m);
            Tokens(line[..|line| - 1]) == Header(m) + Tokens(PayloadText(m.payload))
  {
    hide Printed, Tokens, PayloadText;
    var text := PayloadText(m.payload);
    var t4 := Field(m.kind) + text;
    var t3 := Field(if m.ack then 1 else 0) + t4;
    var t2 := Field(m.command) + t3;
    var t1 := Field(m.sensor) + t2;
    var t0 := Field(m.sender) + t1;
    assert Format(m) == t0 + "\n" && Format(m)[..|Format(m)| - 1] == t0;
    hide Field;
    FieldToken(m.sender, t1);
    FieldToken(m.sensor, t2);
    FieldToken(m.command, t3);
    FieldToken(if m.ack then 1 else 0, t4);
    FieldToken(m.kind, text);
  }

  /** The line always fits the send buffer. */
  lemma LineFits(m: Message)
    requires Valid(m)
    ensures |Format(m)| < MAX_SEND_LENGTH
  {
    PrintedLength(m.sender, 3);
    PrintedLength(m.sensor, 3);
    PrintedLength(m.command, 3);
    PrintedLength(m.kind, 3);
    hide Decimal;
    match m.payload
    case Byte(v) => PrintedLength(v, 10);
    case Int16(v) => PrintedLength(v, 10);
    case Uint16(v) => PrintedLength(v, 10);
    case Long32(v) => PrintedLength(v, 10);
    case Ulong32(v) => PrintedLength(v, 10);
    case _ =>
  }

  function Pow10(k: nat): nat {
    if k == 0 then 1 else 10 * Pow10(k - 1)
  }

  lemma {:induction false} DecimalLength(n: nat, k: nat)
    requires k > 0 && n < Pow10(k)
    ensures |Decimal(n)| <= k
    decreases k
  {
    if n >= 10 {
      assert k > 1;
      DecimalLength(n / 10, k - 1);
    }
  }

  lemma PrintedLength(v: int, k: nat)
    requires k == 3 || k == 10
    requires k == 3 ==> 0 <= v < 256
    requires k == 10 ==> -0x8000_0000 <= v < 0x1_0000_0000
    ensures |Printed(v)| <= k + if v < 0 then 1 else 0
  {
    assert Pow10(3) == 1000;
    assert Pow10(10) == 10_000_000_000 by { assert Pow10(6) == 1_000_000; }
    DecimalLength(if v < 0 then -v else v, k);
  }

  /** Everything but the payload, once the five numbers are read. */
  function Addressed(m0: Message, m: Message): Message {
    m0.(destination := m.sender, sensor := m.sensor, command := m.command, requestAck := m.ack, kind := m.kind)
  }

  lemma FieldIsRead(v: int)
    requires 0 <= v < 256
    ensures Printed(v) != "" && Atoi(Printed(v)) == v && U8(v) == v
  {
    AtoiOfPrinted(v);
    PrintedIsToken(v);
  }

  /** The five numbers, one after the other. */
  lemma FieldsAreTaken(m0: Message, m: Message)
    requires Valid(m)
    ensures forall i :: 0 <= i < 5 ==> Header(m)[i] != ""
    ensures var t := Header(m);
            Take(Take(Take(Take(Take(Parser(m0, 0, 0, None, []), t[0]), t[1]), t[2]), t[3]), t[4]) ==
              Parser(Addressed(m0, m), m.command, 5, None, [])
  {
    hide Printed, Take, Atoi, U8;
    var a := if m.ack then 1 else 0;
    FieldIsRead(m.sender);
    FieldIsRead(m.sensor);
    FieldIsRead(m.command);
    FieldIsRead(a);
    FieldIsRead(m.kind);
    var p1 := Parser(m0.(destination := m.sender), 0, 1, None, []);
    var p2 := Parser(p1.message.(sensor := m.sensor), 0, 2, None, []);
    var p3 := Parser(p2.message.(command := m.command), m.command, 3, None, []);
    var p4 := Parser(p3.message.(requestAck := m.ack), m.command, 4, None, []);
    TakesNumber(Parser(m0, 0, 0, None, []), m.sender);
    TakesNumber(p1, m.sensor);
    TakesNumber(p2, m.command);
    TakesNumber(p3, a);
    TakesNumber(p4, m.kind);
  }

  /** What a number does to the parser. */
  function WithNumber(p: Parser, v: byte): Parser {
    var m := p.message;
    var q := p.(count := p.count + 1);
    match p.count
    case 0 => q.(message := m.(destination := v))
    case 1 => q.(message := m.(sensor := v))
    case 2 => q.(message := m.(command := v % 8), command := v)
    case 3 => q.(message := m.(requestAck := v != 0))
    case _ => q.(message := m.(kind := v))
  }

  lemma TakesNumber(p: Parser, v: byte)
    requires p.count < 5 && Printed(v) != ""
    ensures Take(p, Printed(v)) == WithNumber(p, v)
  {
    FieldIsRead(v);
    hide Printed, Atoi, U8, Stripped, HexBytes;
  }

  lemma HeaderIsTaken(m0: Message, m: Message, rest: seq<string>)
    requires Valid(m) && forall i :: 0 <= i < |rest| ==> rest[i] != ""
    ensures forall i :: 0 <= i < |Header(m) + rest| ==> (Header(m) + rest)[i] != ""
    ensures TakeAll(Parser(m0, 0, 0, None, []), Header(m) + rest) ==
              TakeAll(Parser(Addressed(m0, m), m.command, 5, None, []), rest)
  {
    hide Printed, Take, TakeAll, Valid;
    FieldsAreTaken(m0, m);
    var t := Header(m);
    var p0 := Parser(m0, 0, 0, None, []);
    TakeCounts(p0, t[0]);
    var p1 := Take(p0, t[0]);
    TakeCounts(p1, t[1]);
    var p2 := Take(p1, t[1]);
    TakeCounts(p2, t[2]);
    var p3 := Take(p2, t[2]);
    TakeCounts(p3, t[3]);
    var p4 := Take(p3, t[3]);
    var s4 := [t[4]] + rest;
    var s3 := [t[3]] + s4;
    var s2 := [t[2]] + s3;
    var s1 := [t[1]] + s2;
    assert Header(m) + rest == [t[0]] + s1;
    TakeOne(p4, t[4], rest);
    TakeOne(p3, t[3], s4);
    TakeOne(p2, t[2], s3);
    TakeOne(p1, t[1], s2);
    TakeOne(p0, t[0], s1);
  }

  lemma TakeCounts(p: Parser, token: string)
    requires token != "" && p.count <= 5
    ensures Take(p, token).count == p.count + 1
  {
    hide Atoi, Stripped, HexBytes;
  }

  lemma TakeOne(p: Parser, token: string, rest: seq<string>)
    requires token != "" && p.count < 6 && forall i :: 0 <= i < |rest| ==> rest[i] != ""
    ensures TakeAll(p, [token] + rest) == TakeAll(Take(p, token), rest)
  {
    assert ([token] + rest)[1..] == rest;
  }

  /** The payload as it is taken from the text after the header. */
  function Returned(command: byte, text: string): Payload {
    TokensAreNotEmpty(text);
    PayloadOf(TakeAll(Parser(Message(0, 0, 0, 0, 0, 0, false, false, Text("")), command, 5, None, []), Tokens(text)))
  }

  /** From the payload on, only the command matters. */
  lemma PayloadIsTaken(p: Parser, text: string)
    requires p.count == 5 && p.value == None && p.bytes == []
    ensures forall i :: 0 <= i < |Tokens(text)| ==> Tokens(text)[i] != ""
    ensures var q := TakeAll(p, Tokens(text));
            q.count >= 5 && q.message == p.message && PayloadOf(q) == Returned(p.command, text)
  {
    TokensAreNotEmpty(text);
    hide Atoi, Tokens, Stripped, HexBytes;
    var tokens := Tokens(text);
    if tokens != [] {
      var m := Message(0, 0, 0, 0, 0, 0, false, false, Text(""));
      var blank := Parser(m, p.command, 5, None, []);
      assert Take(p, tokens[0]).count == 6 && Take(blank, tokens[0]).count == 6;
      assert TakeAll(Take(p, tokens[0]), tokens[1..]) == Take(p, tokens[0]);
      assert TakeAll(Take(blank, tokens[0]), tokens[1..]) == Take(blank, tokens[0]);
    }
  }

  /** The printed line, without its newline, parses to a message to the sender of the first, with the same
      sensor, command and type, and the acknowledgement flag as the request for one. */
  lemma LineParses(m0: Message, m: Message)
    requires Valid(m) && HexFits(Format(m)[..|Format(m)| - 1])
    ensures var line := Format(m);
            Parsed(m0, line[..|line| - 1]) ==
              (Message(GATEWAY_ADDRESS, GATEWAY_ADDRESS, m.sender, m.sensor, m.command, m.kind, m.ack, false,
                       Returned(m.command, PayloadText(m.payload))), true)
  {
    var line := Format(m)[..|Format(m)| - 1];
    var text := PayloadText(m.payload);
    TokensOfLine(m);
    TokensAreNotEmpty(line);
    TokensAreNotEmpty(text);
    HeaderIsTaken(m0, m, Tokens(text));
    PayloadIsTaken(Parser(Addressed(m0, m), m.command, 5, None, []), text);
    hide Format, Header, Tokens, TakeAll, PayloadOf, Returned, PayloadText, Valid;
  }

  /** The line of any message, except a stream with a payload that is not custom, may be parsed. */
  lemma LineFitsHex(m: Message)
    requires Valid(m) && (m.command == C_STREAM ==> m.payload.Custom?)
    ensures HexFits(Format(m)[..|Format(m)| - 1])
  {
    hide Printed, Atoi, Tokens, U8, Format, HexBytes;
    TokensOfLine(m);
    FieldIsRead(m.command);
    NoTokens();
    var text := PayloadText(m.payload);
    if m.command == C_STREAM {
      HexBytesOfText(m.payload.bytes);
      if text != "" { FirstToken(text, ""); }
    }
    var line := Format(m)[..|Format(m)| - 1];
    assert Tokens(line)[2] == Printed(m.command);
    assert |Tokens(line)| >= 6 ==> Tokens(line)[5] == Tokens(text)[0];
  }

  lemma NoTokens()
    ensures Tokens("") == []
  {
  }

  // ----- What becomes of the payload -----

  /** Only the first piece of the text counts. */
  lemma ReturnedIs(command: byte, text: string)
    ensures Tokens(text) != [] ==> Tokens(text)[0] != ""
    ensures Returned(command, text) ==
              if command == C_STREAM then
                Custom(if Tokens(text) == [] then [] else Cut(HexBytes(Tokens(text)[0])))
              else
                Text(if Tokens(text) == [] then "" else Cut(Stripped(Tokens(text)[0])))
  {
    TokensAreNotEmpty(text);
    hide Atoi, Stripped, HexBytes, Tokens;
    var tokens := Tokens(text);
    var p := Parser(Message(0, 0, 0, 0, 0, 0, false, false, Text("")), command, 5, None, []);
    if tokens != [] {
      TakeCounts(p, tokens[0]);
      assert TakeAll(Take(p, tokens[0]), tokens[1..]) == Take(p, tokens[0]);
    }
  }

  lemma ReturnedOfToken(command: byte, text: string)
    requires text == "" || IsToken(text)
    ensures Returned(command, text) ==
              if command == C_STREAM then Custom(Cut(HexBytes(text)))
              else Text(if text == "" then "" else Cut(Stripped(text)))
  {
    ReturnedIs(command, text);
    if text == "" { NoTokens(); } else { FirstToken(text, ""); }
    hide Stripped, HexBytes, Returned;
    assert HexBytes("") == [];
  }

  /** The bytes of a stream come back as they are, through hexadecimal. */
  lemma StreamReturns(bytes: seq<byte>)
    requires |bytes| <= MAX_PAYLOAD
    ensures Returned(C_STREAM, PayloadText(Custom(bytes))) == Custom(bytes)
  {
    HexBytesOfText(bytes);
    ReturnedOfToken(C_STREAM, HexText(bytes));
  }

  predicate EndsLine(text: string) {
    text != "" && (text[|text| - 1] == '\r' || text[|text| - 1] == '\n')
  }

  lemma StrippedShort(text: string)
    requires text != "" && |text| <= 256
    ensures Stripped(text) == if EndsLine(text) then text[..|text| - 1] else text
  {
  }

  /** The first piece of a text with separators is shorter than the text. */
  lemma FirstPieceIsShorter(text: string)
    requires ';' in text
    ensures Tokens(text) == [] || |Tokens(text)[0]| < |text|
  {
    var t := SkipSeparators(text);
    assert |t| == |text| ==> t == text;
  }

  lemma PlainTextReturnsIff(command: byte, text: string)
    requires command != C_STREAM && |text| <= MAX_PAYLOAD
    ensures Returned(command, text) == Text(text) <==> ';' !in text && !EndsLine(text)
  {
    if ';' !in text {
      ReturnedOfToken(command, text);
      if text != "" { StrippedShort(text); }
    } else {
      ReturnedIs(command, text);
      FirstPieceIsShorter(text);
      if Tokens(text) != [] { StrippedShort(Tokens(text)[0]); }
      hide Tokens, Returned, Stripped;
    }
  }

  /** What comes back is never longer than what was printed. */
  lemma ReturnedIsNoLonger(command: byte, text: string)
    requires command != C_STREAM
    ensures Returned(command, text).Text? && |Returned(command, text).text| <= |text|
  {
    ReturnedIs(command, text);
    hide Returned;
  }

  /** A text comes back unchanged exactly if it holds no NUL and no separator and does not end a line. */
  lemma TextReturnsIff(command: byte, text: string)
    requires command != C_STREAM && |text| <= MAX_PAYLOAD
    ensures Returned(command, PayloadText(Text(text))) == Text(text)
       <==> '\0' !in text && ';' !in text && !EndsLine(text)
  {
    hide Returned, EndsLine;
    PlainTextReturnsIff(command, text);
    ReturnedIsNoLonger(command, UpToNul(text));
  }

  predicate IsLineEnd(c: char) {
    c == '\r' || c == '\n'
  }

  /** Only one character is taken off the end: a line end is left exactly if there were two, or if the text is
      so long that the index into it wraps. */
  lemma LineEndIsLeftIff(value: string)
    requires value != ""
    ensures var k := U8(|value| - 1);
            EndsLine(Stripped(value)) <==>
              if IsLineEnd(value[k]) then k > 0 && IsLineEnd(value[k - 1]) else EndsLine(value)
    ensures |value| <= 256 ==>
              (EndsLine(Stripped(value)) <==> EndsLine(value) && EndsLine(value[..|value| - 1]))
  {
  }

  /** A line that ends in CR LF keeps the CR. */
  lemma CrLfKeepsCr()
    ensures Stripped("on\r\n") == "on\r" && EndsLine(Stripped("on\r\n"))
  {
    StrippedShort("on\r\n");
  }

  // ----- Reading numbers -----

  function S16(v: int): int {
    var u := U16(v);
    if u < 0x8000 then u else u - 0x1_0000
  }

  function GetByte(p: Payload): byte {
    match p
    case Byte(v) => v
    case Text(text) => U8(Atoi(text))
    case _ => 0
  }

  function GetInt(p: Payload): int {
    match p
    case Int16(v) => v
    case Text(text) => S16(Atoi(text))
    case _ => 0
  }

  function GetUInt(p: Payload): int {
    match p
    case Uint16(v) => v
    case Text(text) => U16(Atoi(text))
    case _ => 0
  }

  function GetLong(p: Payload): int {
    match p
    case Long32(v) => v
    case Text(text) => Atoi(text)
    case _ => 0
  }

  function GetULong(p: Payload): int {
    match p
    case Ulong32(v) => v
    case Text(text) => U32(Atoi(text))
    case _ => 0
  }

  lemma NumberReturns(command: byte, v: int)
    requires command != C_STREAM && -0x8000_0000 <= v < 0x1_0000_0000
    ensures Returned(command, Printed(v)) == Text(Printed(v)) && Atoi(Printed(v)) == Clamped(v)
  {
    PrintedIsToken(v);
    PrintedLength(v, 10);
    AtoiOfPrinted(v);
    PrintedEndsInDigit(v);
    PlainTextReturnsIff(command, Printed(v));
  }

  lemma PrintedEndsInDigit(v: int)
    ensures !EndsLine(Printed(v))
  {
    var n := if v < 0 then -v else v;
    DecimalIsNumber(n);
    var s := Printed(v);
    assert s[|s| - 1] == Decimal(n)[|Decimal(n)| - 1];
  }

  lemma Narrow(v: int)
    ensures 0 <= v < 256 ==> U8(v) == v
    ensures 0 <= v < 0x1_0000 ==> U16(v) == v
    ensures -0x8000 <= v < 0x8000 ==> S16(v) == v
    ensures 0 <= v < 0x1_0000_0000 ==> U32(v) == v
  {
  }

  /** A number that was printed is read back by the getter of its type; an unsigned 32-bit one exactly if it
      is below 2^31, since it is read as a signed one. */
  lemma NumbersReturn(command: byte, p: Payload)
    requires command != C_STREAM && p.Valid()
    ensures var r := Returned(command, PayloadText(p));
            match p
            case Byte(v) => GetByte(r) == v
            case Int16(v) => GetInt(r) == v
            case Uint16(v) => GetUInt(r) == v
            case Long32(v) => GetLong(r) == v
            case Ulong32(v) => GetULong(r) == v <==> v < 0x8000_0000
            case _ => true
  {
    hide Printed, Returned, Atoi, U8, U16, S16, U32;
    match p
    case Byte(v) => NumberReturns(command, v); Narrow(v);
    case Int16(v) => NumberReturns(command, v); Narrow(v);
    case Uint16(v) => NumberReturns(command, v); Narrow(v);
    case Long32(v) => NumberReturns(command, v);
    case Ulong32(v) => NumberReturns(command, v); Narrow(Clamped(v));
    case _ =>
  }

  // ----- Any line -----

  predicate Fits32(v: int) {
    -0x8000_0000 <= v <= 0x7FFF_FFFF
  }

  predicate IsSpace(c: char) {
    c in {' ', '\t', '\n', '\U{0B}', '\U{0C}', '\r'}
  }

  /** A number is read past white space and a sign, up to the first character that is no digit. */
  lemma {:induction false} AtoiReads(spaces: string, sign: string, n: nat, rest: string)
    requires forall i :: 0 <= i < |spaces| ==> IsSpace(spaces[i])
    requires sign == "" || sign == "+" || sign == "-"
    requires rest == "" || !IsDigit(rest[0])
    ensures Atoi(spaces + sign + Decimal(n) + rest) == Clamped(if sign == "-" then -(n as int) else n)
    decreases |spaces|
  {
    hide Decimal, Atoi, Clamped;
    if spaces == "" {
      SignedNumber(sign, n, rest);
      assert spaces + sign + Decimal(n) + rest == sign + Decimal(n) + rest;
    } else {
      AtoiReads(spaces[1..], sign, n, rest);
      SpaceIsSkipped(spaces[0], spaces[1..] + sign + Decimal(n) + rest);
      assert spaces + sign + Decimal(n) + rest == [spaces[0]] + (spaces[1..] + sign + Decimal(n) + rest);
    }
  }

  lemma SpaceIsSkipped(c: char, s: string)
    requires IsSpace(c)
    ensures Atoi([c] + s) == Atoi(s)
  {
    hide Clamped, LeadingNumber;
    assert ([c] + s)[1..] == s;
  }

  lemma SignedNumber(sign: string, n: nat, rest: string)
    requires sign == "" || sign == "+" || sign == "-"
    requires rest == "" || !IsDigit(rest[0])
    ensures Atoi(sign + Decimal(n) + rest) == Clamped(if sign == "-" then -(n as int) else n)
  {
    NumberAndRest(n, rest);
    hide Decimal, Clamped, LeadingNumber, DigitSpan;
    var t := Decimal(n) + rest;
    assert sign + Decimal(n) + rest == sign + t;
    if sign == "" {
      assert sign + t == t;
    } else {
      assert (sign + t)[1..] == t && (sign + t)[0] == sign[0];
    }
    assert SkipSpaces(sign + t) == sign + t;
  }

  lemma NumberAndRest(n: nat, rest: string)
    requires rest == "" || !IsDigit(rest[0])
    ensures LeadingNumber(Decimal(n) + rest) == n && (Decimal(n) + rest)[0] == Decimal(n)[0] && IsDigit(Decimal(n)[0])
  {
    DecimalIsNumber(n);
    SpanOfDigits(Decimal(n), rest);
    assert (Decimal(n) + rest)[..|Decimal(n)|] == Decimal(n);
  }

  lemma {:induction false} SpanOfDigits(digits: string, rest: string)
    requires forall i :: 0 <= i < |digits| ==> IsDigit(digits[i])
    requires rest == "" || !IsDigit(rest[0])
    ensures DigitSpan(digits + rest) == |digits|
    decreases |digits|
  {
    if digits == "" {
      assert digits + rest == rest;
    } else {
      assert (digits + rest)[1..] == digits[1..] + rest;
      SpanOfDigits(digits[1..], rest);
    }
  }

  /** What does not fit 32 bits is read as the nearest number that does. */
  lemma ClampedIsNearest(v: int, w: int)
    requires Fits32(w)
    ensures Fits32(Clamped(v)) && (Fits32(v) ==> Clamped(v) == v)
    ensures (if v < w then w - v else v - w) >= (if v < Clamped(v) then Clamped(v) - v else v - Clamped(v))
  {
  }

  /** Letters of either case are read. */
  lemma HexIsRead(k: nat)
    requires k < 16
    ensures H2i("0123456789ABCDEF"[k]) == k && H2i("0123456789abcdef"[k]) == k
  {
    if k >= 10 { LetterIsRead(k - 10); }
  }

  lemma LetterIsRead(k: nat)
    requires k < 6
    ensures H2i("ABCDEF"[k]) == k + 10 && H2i("abcdef"[k]) == k + 10
  {
    var upper, lower := "ABCDEF", "abcdef";
    assert upper[k] == 'A' + k as char && lower[k] == 'a' + k as char;
  }

  /** Of a long piece of text the first 25 characters are taken. */
  lemma LongTextIsCut(command: byte, text: string)
    requires command != C_STREAM && 25 < |text| <= 256 && ';' !in text
    ensures Returned(command, text) == Text(text[..25])
  {
    hide Returned;
    ReturnedOfToken(command, text);
    StrippedShort(text);
  }

  lemma {:induction false} TakenCount(p: Parser, tokens: seq<string>)
    requires p.count <= 6 && forall i :: 0 <= i < |tokens| ==> tokens[i] != ""
    ensures TakeAll(p, tokens).count == if p.count + |tokens| <= 6 then p.count + |tokens| else 6
    decreases |tokens|
  {
    if tokens != [] && p.count < 6 {
      hide Take;
      TakeCounts(p, tokens[0]);
      TakenCount(Take(p, tokens[0]), tokens[1..]);
    }
  }

  /** A line is a message exactly if it has five pieces or more. */
  lemma LineIsMessageIff(m: Message, line: string)
    ensures Parsed(m, line).1 <==> |Tokens(line)| >= 5
  {
    TokensAreNotEmpty(line);
    TakenCount(Parser(m, 0, 0, None, []), Tokens(line));
  }

  /** What a number of 32 bits does to the parser. */
  function WithAny(p: Parser, v: int): Parser {
    var m := p.message;
    var q := p.(count := p.count + 1);
    match p.count
    case 0 => q.(message := m.(destination := v % 256))
    case 1 => q.(message := m.(sensor := v % 256))
    case 2 => q.(message := m.(command := v % 8), command := v % 256)
    case 3 => q.(message := m.(requestAck := v != 0))
    case _ => q.(message := m.(kind := v % 256))
  }

  lemma TakesAny(p: Parser, v: int)
    requires p.count < 5 && Fits32(v)
    ensures Printed(v) != "" && Take(p, Printed(v)) == WithAny(p, v)
  {
    AtoiOfPrinted(v);
    PrintedIsToken(v);
    LowByte(v);
    hide Printed, Atoi, U8, Stripped, HexBytes;
  }

  lemma LowByte(v: int)
    ensures U8(v) == v % 256 && v % 256 % 8 == v % 8
  {
    var q, r := v / 256, v % 256;
    assert v == 8 * (32 * q + r / 8) + r % 8;
    Remainder(32 * q + r / 8, r % 8);
  }

  lemma Remainder(q: int, r: nat)
    requires r < 8
    ensures (8 * q + r) % 8 == r
  {
  }

  function Numbers(a: int, b: int, c: int, d: int, e: int): seq<string> {
    [Printed(a), Printed(b), Printed(c), Printed(d), Printed(e)]
  }

  lemma TokensOfNumbers(a: int, b: int, c: int, d: int, e: int, text: string)
    ensures Tokens(Field(a) + (Field(b) + (Field(c) + (Field(d) + (Field(e) + text))))) ==
              Numbers(a, b, c, d, e) + Tokens(text)
  {
    hide Printed, Tokens, Field;
    FieldToken(e, text);
    FieldToken(d, Field(e) + text);
    FieldToken(c, Field(d) + (Field(e) + text));
    FieldToken(b, Field(c) + (Field(d) + (Field(e) + text)));
    FieldToken(a, Field(b) + (Field(c) + (Field(d) + (Field(e) + text))));
  }

  lemma NumbersAreTaken(p: Parser, a: int, b: int, c: int, d: int, e: int, rest: seq<string>)
    requires p.count == 0 && Fits32(a) && Fits32(b) && Fits32(c) && Fits32(d) && Fits32(e)
    requires forall i :: 0 <= i < |rest| ==> rest[i] != ""
    ensures forall i :: 0 <= i < 5 + |rest| ==> (Numbers(a, b, c, d, e) + rest)[i] != ""
    ensures TakeAll(p, Numbers(a, b, c, d, e) + rest) ==
              TakeAll(WithAny(WithAny(WithAny(WithAny(WithAny(p, a), b), c), d), e), rest)
  {
    hide Printed, Take, TakeAll;
    var p1 := WithAny(p, a);
    var p2 := WithAny(p1, b);
    var p3 := WithAny(p2, c);
    var p4 := WithAny(p3, d);
    TakesAny(p, a);
    TakesAny(p1, b);
    TakesAny(p2, c);
    TakesAny(p3, d);
    TakesAny(p4, e);
    var s4 := [Printed(e)] + rest;
    var s3 := [Printed(d)] + s4;
    var s2 := [Printed(c)] + s3;
    var s1 := [Printed(b)] + s2;
    assert Numbers(a, b, c, d, e) + rest == [Printed(a)] + s1;
    TakeOne(p4, Printed(e), rest);
    TakeOne(p3, Printed(d), s4);
    TakeOne(p2, Printed(c), s3);
    TakeOne(p1, Printed(b), s2);
    TakeOne(p, Printed(a), s1);
  }

  /** A line of any five numbers of 32 bits: destination, sensor, command and type keep their low bits, and any request
      but 0 asks for an acknowledgement. */
  lemma AnyNumbersParse(m0: Message, a: int, b: int, c: int, d: int, e: int, text: string)
    requires Fits32(a) && Fits32(b) && Fits32(c) && Fits32(d) && Fits32(e)
    ensures Parsed(m0, Field(a) + (Field(b) + (Field(c) + (Field(d) + (Field(e) + text))))) ==
              (Message(0, 0, a % 256, b % 256, c % 8, e % 256, d != 0, false, Returned(c % 256, text)), true)
  {
    var line := Field(a) + (Field(b) + (Field(c) + (Field(d) + (Field(e) + text))));
    var p := Parser(m0, 0, 0, None, []);
    TokensAreNotEmpty(text);
    TokensAreNotEmpty(line);
    TokensOfNumbers(a, b, c, d, e, text);
    NumbersAreTaken(p, a, b, c, d, e, Tokens(text));
    var q := WithAny(WithAny(WithAny(WithAny(WithAny(p, a), b), c), d), e);
    PayloadIsTaken(q, text);
    hide Field, Numbers, Tokens, TakeAll, PayloadOf, Returned;
  }

  /** A reading of sensor 6 at node 12. */
  lemma ReadingLooksLike()
    ensures Format(Message(0, 12, 0, 6, 1, 0, false, false, Text("36.5"))) == "12;6;1;0;0;36.5\n"
  {
    hide Decimal, UpToNul;
    SmallNumbers();
    LettersOfText();
  }

  /** Two bytes of a stream. */
  lemma StreamLooksLike()
    ensures Format(Message(0, 7, 0, 255, 4, 3, true, true, Custom([0x1A, 0xF0]))) == "7;255;4;1;3;1AF0\n"
  {
    hide Decimal, HexText;
    SmallNumbers();
    TwoBytes();
  }

  lemma SmallNumbers()
    ensures Decimal(0) == "0" && Decimal(1) == "1" && Decimal(3) == "3" && Decimal(4) == "4" && Decimal(6) == "6"
    ensures Decimal(7) == "7" && Decimal(12) == "12" && Decimal(255) == "255"
  {
    assert Decimal(25) == "25";
  }

  lemma TwoBytes()
    ensures HexText([0x1A, 0xF0]) == "1AF0"
  {
    assert [0x1A, 0xF0][..1] == [0x1A] && [0x1A][..0] == [];
    assert HexText([0x1A]) == "1A";
  }

  lemma LettersOfText()
    ensures UpToNul("36.5") == "36.5"
  {
    assert '\0' !in "36.5";
  }
}

/** The gateway's side of the serial line: the messages and the parser as they run. */
module GatewayProtocol {
  import opened Words
  import opened GatewayProtocolSpec

  class MyMessage {
    var last: byte
    var sender: byte
    var destination: byte
    var sensor: byte
    var command: byte
    var kind: byte
    var requestAck: bool
    var ack: bool
    var payload: Payload

    constructor ()
      ensures View() == Message(0, 0, 0, 0, 0, 0, false, false, Text(""))
    {
      last, sender, destination, sensor, command, kind := 0, 0, 0, 0, 0, 0;
      requestAck, ack := false, false;
      payload := Text("");
    }

    function View(): Message
      reads this
    {
      Message(last, sender, destination, sensor, command, kind, requestAck, ack, payload)
    }

    method SetCustom(value: seq<byte>, length: nat)
      requires length <= |value|
      modifies this`payload
      ensures payload == Custom(Cut(value[..length]))
    {
      var payloadLength := if length < MAX_PAYLOAD then length else MAX_PAYLOAD;
      payload := Custom(value[..payloadLength]);
    }

    method SetText(value: Option<string>)
      modifies this`payload
      ensures payload == Text(match value case Some(text) => Cut(text) case None => "")
    {
      match value
      case None => payload := Text("");
      case Some(text) =>
        var length := if |text| < MAX_PAYLOAD then |text| else MAX_PAYLOAD;
        payload := Text(text[..length]);
    }

    /** The payload of a stream or other custom message, two letters a byte. */
    method GetCustomString() returns (buffer: string)
      requires payload.Custom?
      ensures buffer == HexText(payload.bytes)
    {
      buffer := "";
      var data := payload.bytes;
      for i := 0 to |data|
        invariant buffer == HexText(data[..i])
      {
        assert data[..i + 1][..i] == data[..i];
        buffer := buffer + [I2h(data[i] / 16)];
        buffer := buffer + [I2h(data[i])];
      }
      assert data[..|data|] == data;
    }

    method GetString() returns (buffer: string)
      ensures buffer == PayloadText(payload)
    {
      match payload
      case Text(text) => buffer := UpToNul(text);
      case Custom(_) => buffer := GetCustomString();
      case Byte(v) => buffer := Printed(v);
      case Int16(v) => buffer := Printed(v);
      case Uint16(v) => buffer := Printed(v);
      case Long32(v) => buffer := Printed(v);
      case Ulong32(v) => buffer := Printed(v);
    }

    method ProtocolFormat() returns (line: string)
      ensures line == Format(View())
    {
      hide Printed;
      var text := GetString();
      var a := if ack then 1 else 0;
      line := Printed(sender) + ";" + Printed(sensor) + ";" + Printed(command) + ";" + Printed(a) + ";";
      line := line + Printed(kind) + ";";
      line := line + text;
      line := line + "\n";
    }

    /** Decodes pairs of letters; the original demands that they fit its buffer of 25 bytes. */
    static method DecodeHex(token: string) returns (bvalue: seq<byte>)
      requires |token| % 2 == 0 && |token| <= 2 * MAX_PAYLOAD
      ensures bvalue == HexBytes(token)
    {
      bvalue := [];
      var k := 0;
      while k < |token|
        invariant 0 <= k <= |token| && k % 2 == 0 && bvalue == HexBytes(token[..k])
      {
        var val := U8(H2i(token[k]) * 16);
        val := U8(val as int + H2i(token[k + 1]));
        assert token[..k + 2][..k] == token[..k];
        bvalue := bvalue + [val];
        k := k + 2;
      }
      assert token[..|token|] == token;
    }

    /** The cases of the parser's loop: token i into its place. */
    method TakeField(i: nat, token: string, commandRead: byte, value: Option<string>, bvalue: seq<byte>)
      returns (c: byte, v: Option<string>, b: seq<byte>)
      requires i < 6 && token != ""
      requires i == 5 && commandRead == C_STREAM ==> |token| % 2 == 0 && |token| <= 2 * MAX_PAYLOAD
      modifies this
      ensures c == if i == 2 then U8(Atoi(token)) else commandRead
      ensures Parser(View(), c, i + 1, v, b) == Take(Parser(old(View()), commandRead, i, value, bvalue), token)
    {
      hide Atoi, Stripped, HexBytes;
      c, v, b := commandRead, value, bvalue;
      match i {
        case 0 => destination := U8(Atoi(token));
        case 1 => sensor := U8(Atoi(token));
        case 2 =>
          c := U8(Atoi(token));
          command := c % 8;
        case 3 => requestAck := Atoi(token) != 0;
        case 4 => kind := U8(Atoi(token));
        case _ =>
          if c == C_STREAM {
            b := DecodeHex(token);
          } else {
            v := Some(Stripped(token));
          }
      }
    }

    method ProtocolParse(inputString: string) returns (ok: bool)
      requires HexFits(inputString)
      modifies this
      ensures (View(), ok) == Parsed(old(View()), inputString)
    {
      hide Atoi, Stripped, HexBytes, Cut, Take, Tokens;
      var value: Option<string> := None;
      var bvalue: seq<byte> := [];
      var i := 0;
      var commandRead: byte := 0;
      ghost var tokens := Tokens(inputString);
      TokensAreNotEmpty(inputString);
      var str, p := Strtok(inputString);
      while str.Some? && i < 6
        invariant 0 <= i <= |tokens| && i <= 6
        invariant tokens[i..] == (if str.Some? then [str.value] else []) + Tokens(p)
        invariant str.None? ==> Tokens(p) == []
        invariant i > 2 ==> commandRead == U8(Atoi(tokens[2]))
        invariant TakeAll(Parser(old(View()), 0, 0, None, []), tokens) ==
                    TakeAll(Parser(View(), commandRead, i, value, bvalue), tokens[i..])
        decreases |tokens| - i
      {
        var token := str.value;
        assert token == tokens[i];
        commandRead, value, bvalue := TakeField(i, token, commandRead, value, bvalue);
        assert tokens[i..] == [token] + tokens[i + 1..];
        i := i + 1;
        str, p := Strtok(p);
      }
      if i < 5 {
        return false;
      }
      sender := GATEWAY_ADDRESS;
      last := GATEWAY_ADDRESS;
      ack := false;
      if commandRead == C_STREAM {
        SetCustom(bvalue, |bvalue|);
        assert bvalue[..|bvalue|] == bvalue;
      } else {
        SetText(value);
      }
      return true;
    }
  }

  /** strtok_r: the next piece, and where to go on. */
  method Strtok(s: string) returns (token: Option<string>, rest: string)
    ensures Tokens(s) == (if token.Some? then [token.value] else []) + Tokens(rest)
    ensures token.None? ==> Tokens(rest) == []
  {
    var t := SkipSeparators(s);
    if t == "" {
      return None, "";
    }
    var k := Span(t);
    return Some(t[..k]), t[k..];
  }
}
