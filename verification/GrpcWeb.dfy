/** gRPC-Web framing: flag, big-endian length and payload, repeated; the trailer frame carries header lines. */
module GrpcWeb {
  import opened Wrappers
  import opened Sequences
  import opened Repetition
  import opened Protobuf
  import opened Text

  datatype ParseError = BadMessage(error: Protobuf.Error) | BadStatus

  datatype FrameError = TooLong

  datatype Frame = Frame(flag: byte, payload: Bytes)

  type Trailers = map<Bytes, Bytes>

  datatype Content = Content(messages: seq<seq<Field>>, trailers: Trailers)

  datatype Response = Response(messages: seq<seq<Field>>, trailers: Trailers, status: Option<int>)

  const LENGTH_LIMIT := 0x1_0000_0000
  const CRLF: Bytes := [13, 10]
  const COLON: byte := 58
  const GRPC_STATUS: Bytes := [103, 114, 112, 99, 45, 115, 116, 97, 116, 117, 115]

  // Frames

  function Uint32(n: nat): (s: Bytes)
    ensures |s| == 4
  {
    [n / 0x100_0000 % 256, n / 0x1_0000 % 256, n / 256 % 256, n % 256]
  }

  function ReadUint32(s: Bytes): nat
    requires |s| >= 4
  {
    var b0: nat, b1: nat, b2: nat, b3: nat := s[0], s[1], s[2], s[3];
    0x100_0000 * b0 + 0x1_0000 * b1 + 256 * b2 + b3
  }

  predicate Fits(f: Frame) {
    |f.payload| < LENGTH_LIMIT
  }

  function FrameBytes(f: Frame): (s: Bytes)
    ensures |s| == 5 + |f.payload|
  {
    [f.flag] + Uint32(|f.payload|) + f.payload
  }

  /** The first frame; its size may exceed s, when its payload is cut short. */
  function ReadFrame(s: Bytes): Result<Piece<Frame>, FrameError> {
    if |s| < 5 then Failure(TooLong)
    else
      var length := ReadUint32(s[1..5]);
      Success(Piece(Frame(s[0], Take(s[5..], length)), 5 + length))
  }

  /** The frames of a body; fewer than five bytes at the end are ignored. */
  function Frames(body: Bytes): Result<seq<Frame>, FrameError> {
    Many(ReadFrame, 5, body)
  }

  lemma {:induction false} FramesSucceed(body: Bytes)
    ensures Frames(body).Success?
    decreases |body|
  {
    if |body| >= 5 {
      FramesSucceed(Drop(body, ReadFrame(body).value.size));
    }
  }

  /** One data frame, or an error when the length does not fit in 32 bits. */
  method FrameRequest(message: Bytes) returns (r: Result<Bytes, FrameError>)
    ensures r.Success? <==> |message| < LENGTH_LIMIT
    ensures r.Success? ==> r.value == FrameBytes(Frame(0, message))
    ensures r.Success? ==> Frames(r.value) == Success([Frame(0, message)])
  {
    if |message| >= LENGTH_LIMIT {
      return Failure(TooLong);
    }
    r := Success([0] + Uint32(|message|) + message);
    FramesRoundTrip([Frame(0, message)], []);
    FlatMapOfOne(FrameBytes, Frame(0, message));
    assert r.value + [] == r.value;
  }

  lemma Uint32RoundTrip(n: nat)
    requires n < LENGTH_LIMIT
    ensures ReadUint32(Uint32(n)) == n
  {
    var a := n / 256;
    var b := a / 256;
    var c := b / 256;
    assert n / 0x1_0000 == b && n / 0x100_0000 == c && c < 256;
    assert a == 256 * b + a % 256 && b == 256 * c + b % 256;
  }

  lemma FrameRoundTrip(f: Frame, rest: Bytes)
    requires Fits(f)
    ensures ReadFrame(FrameBytes(f) + rest) == Success(Piece(f, 5 + |f.payload|))
  {
    var s := FrameBytes(f) + rest;
    Uint32RoundTrip(|f.payload|);
    assert s[1..5] == Uint32(|f.payload|);
    assert s[5..] == f.payload + rest;
    TakeExtends(f.payload, rest, |f.payload|);
  }

  /** Frames written one after another are read back in order; a tail too short for a header changes nothing. */
  lemma {:induction false} FramesRoundTrip(frames: seq<Frame>, tail: Bytes)
    requires forall f | f in frames :: Fits(f)
    requires |tail| < 5
    ensures Frames(FlatMap(FrameBytes, frames) + tail) == Success(frames)
  {
    var write, view, fits := (f: Frame) => FrameBytes(f), (f: Frame) => f, (f: Frame) => Fits(f);
    forall f: Frame, rest: Bytes | fits(f)
      ensures |write(f)| >= 5 && ReadFrame(write(f) + rest) == Success(Piece(view(f), |write(f)|))
    {
      FrameRoundTrip(f, rest);
    }
    ManyRoundTrip(ReadFrame, 5, write, view, fits, frames, tail);
    FlatMapOfEqual(write, FrameBytes, frames);
    assert Map(view, frames) + [] == frames;
  }

  // Trailer text

  predicate IsSpaceByte(b: byte) {
    9 <= b <= 13 || 28 <= b <= 32
  }

  function TrimBytes(s: Bytes): Bytes {
    Strip(IsSpaceByte, s)
  }

  function Lower(s: Bytes): (r: Bytes)
    ensures |r| == |s| && forall b | b in r :: !(65 <= b <= 90)
    ensures forall i | 0 <= i < |s| :: r[i] == s[i] || (65 <= s[i] <= 90 && r[i] == s[i] + 32)
  {
    seq(|s|, i requires 0 <= i < |s| => if 65 <= s[i] <= 90 then (s[i] + 32) as byte else s[i])
  }

  /** The lines between CRLF pairs; text that ends in one gives an empty last line. */
  function SplitLines(s: Bytes): (lines: seq<Bytes>)
    ensures lines != []
  {
    if s == [] then [[]]
    else if |s| >= 2 && s[..2] == CRLF then [[]] + SplitLines(s[2..])
    else
      var others := SplitLines(s[1..]);
      [[s[0]] + others[0]] + others[1..]
  }

  predicate HasCrlf(s: Bytes) {
    exists i :: 0 <= i < |s| - 1 && s[i] == 13 && s[i + 1] == 10
  }

  lemma {:induction false} SplitAfterLine(line: Bytes, rest: Bytes)
    requires !HasCrlf(line)
    ensures SplitLines(line + CRLF + rest) == [line] + SplitLines(rest)
  {
    var s := line + CRLF + rest;
    if line == [] {
      assert s[..2] == CRLF && s[2..] == rest;
    } else {
      assert s[0] == line[0] && s[1..] == line[1..] + CRLF + rest;
      assert s[..2] != CRLF by {
        if |line| > 1 {
          assert s[1] == line[1] && !(line[0] == 13 && line[0 + 1] == 10);
        } else {
          assert s[1] == 13;
        }
      }
      assert !HasCrlf(line[1..]) by {
        forall i | 0 <= i < |line[1..]| - 1
          ensures !(line[1..][i] == 13 && line[1..][i + 1] == 10)
        {
          assert !(line[i + 1] == 13 && line[i + 1 + 1] == 10);
        }
      }
      SplitAfterLine(line[1..], rest);
      assert [line[0]] + line[1..] == line;
    }
  }

  function WithLine(trailers: Trailers, line: Bytes): Trailers {
    var i := IndexOf(line, COLON);
    if i < |line| then trailers[Lower(TrimBytes(line[..i])) := TrimBytes(line[i + 1..])] else trailers
  }

  function WithLines(trailers: Trailers, lines: seq<Bytes>): Trailers {
    if lines == [] then trailers else WithLine(WithLines(trailers, lines[..|lines| - 1]), lines[|lines| - 1])
  }

  method AddTrailers(trailers: Trailers, payload: Bytes) returns (r: Trailers)
    ensures r == WithLines(trailers, SplitLines(payload))
  {
    r := trailers;
    var lines := SplitLines(payload);
    for n := 0 to |lines|
      invariant r == WithLines(trailers, lines[..n])
    {
      var line := lines[n];
      assert lines[..n + 1][..n] == lines[..n];
      if COLON in line {
        var i := IndexOf(line, COLON);
        assert line[..|line|] == line;
        r := r[Lower(TrimBytes(line[..i])) := TrimBytes(line[i + 1..])];
      }
    }
    assert lines[..|lines|] == lines;
  }

  // Status: an optional sign, then digits, with single underscores allowed between digits

  predicate IsDigit(b: byte) {
    48 <= b <= 57
  }

  function DigitValue(b: byte): nat
    requires IsDigit(b)
  {
    b as int - 48
  }

  function Digits(s: Bytes, value: nat, afterDigit: bool): Option<nat> {
    if s == [] then if afterDigit then Some(value) else None
    else if IsDigit(s[0]) then Digits(s[1..], 10 * value + DigitValue(s[0]), true)
    else if s[0] == 95 && afterDigit then Digits(s[1..], value, false)
    else None
  }

  function ParseInt(text: Bytes): Option<int> {
    var s := TrimBytes(text);
    var signed := s != [] && (s[0] == 43 || s[0] == 45);
    var digits := Digits(if signed then s[1..] else s, 0, false);
    if digits.None? then None
    else
      var n: int := digits.value;
      Some(if signed && s[0] == 45 then -n else n)
  }

  function Decimal(n: nat): (s: Bytes)
    ensures s != [] && forall b | b in s :: IsDigit(b)
  {
    if n < 10 then [48 + n] else Decimal(n / 10) + [48 + n % 10]
  }

  lemma {:induction false} DigitsOfConcat(a: Bytes, last: byte, value: nat, afterDigit: bool)
    requires (forall b | b in a :: IsDigit(b)) && IsDigit(last) && a != []
    ensures Digits(a, value, afterDigit).Some?
    ensures Digits(a + [last], value, afterDigit)
         == Some(10 * Digits(a, value, afterDigit).value + DigitValue(last))
    decreases |a|
  {
    assert (a + [last])[1..] == a[1..] + [last];
    assert a[0] in a;
    var next := 10 * value + DigitValue(a[0]);
    if |a| == 1 {
      assert a[1..] == [] && Digits([], next, true) == Some(next);
      assert [last][1..] == [] && Digits([last], next, true) == Some(10 * next + DigitValue(last));
    } else {
      forall b | b in a[1..]
        ensures IsDigit(b)
      {
        assert b in a;
      }
      DigitsOfConcat(a[1..], last, next, true);
    }
  }

  lemma {:induction false} DigitsRoundTrip(n: nat)
    ensures Digits(Decimal(n), 0, false) == Some(n)
  {
    if n < 10 {
      assert [48 + n][1..] == [];
    } else {
      DigitsRoundTrip(n / 10);
      DigitsOfConcat(Decimal(n / 10), 48 + n % 10, 0, false);
    }
  }

  lemma StatusRoundTrip(n: nat)
    ensures TrimBytes(Decimal(n)) == Decimal(n)
    ensures ParseInt(Decimal(n)) == Some(n)
  {
    var s := Decimal(n);
    assert s[0] in s && s[|s| - 1] in s;
    DigitsRoundTrip(n);
  }

  /** Digits, with single underscores between them. */
  predicate IsNumeral(s: Bytes) {
    && s != [] && IsDigit(s[0]) && IsDigit(s[|s| - 1])
    && forall i | 0 <= i < |s| :: IsDigit(s[i]) || (s[i] == 95 && i + 1 < |s| && s[i + 1] != 95)
  }

  /** The rest of a numeral, after a digit or after an underscore. */
  predicate IsRest(s: Bytes, afterDigit: bool) {
    if s == [] then afterDigit else IsNumeral(s) || (afterDigit && s[0] == 95 && IsNumeral(s[1..]))
  }

  lemma NumeralTail(s: Bytes)
    requires s != []
    ensures IsNumeral(s) <==> IsDigit(s[0]) && IsRest(s[1..], true)
  {
    var rest := s[1..];
    if IsNumeral(s) && rest != [] {
      forall i | 0 <= i < |rest|
        ensures IsDigit(rest[i]) || (rest[i] == 95 && i + 1 < |rest| && rest[i + 1] != 95)
      {
        assert IsDigit(s[i + 1]) || (s[i + 1] == 95 && i + 2 < |s| && s[i + 2] != 95);
      }
      if rest[0] == 95 {
        assert s[1] == 95 && 2 < |s| && s[2] != 95;
        forall i | 0 <= i < |rest[1..]|
          ensures IsDigit(rest[1..][i])
                  || (rest[1..][i] == 95 && i + 1 < |rest[1..]| && rest[1..][i + 1] != 95)
        {
          assert IsDigit(s[i + 2]) || (s[i + 2] == 95 && i + 3 < |s| && s[i + 3] != 95);
        }
      }
    }
    if IsDigit(s[0]) && IsRest(rest, true) {
      forall i | 0 < i < |s|
        ensures IsDigit(s[i]) || (s[i] == 95 && i + 1 < |s| && s[i + 1] != 95)
      {
        if IsNumeral(rest) {
          assert IsDigit(rest[i - 1]) || (rest[i - 1] == 95 && i < |rest| && rest[i] != 95);
        } else if i > 1 {
          assert IsDigit(rest[1..][i - 2])
                 || (rest[1..][i - 2] == 95 && i - 1 < |rest[1..]| && rest[1..][i - 1] != 95);
        }
      }
    }
  }

  function Ciphers(s: Bytes): Bytes {
    Filter(b => b != 95, s)
  }

  /** A number is read from the numerals alone, and underscores do not count. */
  lemma {:induction false} DigitsIff(s: Bytes, value: nat, afterDigit: bool)
    ensures Digits(s, value, afterDigit).Some? <==> IsRest(s, afterDigit)
    ensures IsRest(s, afterDigit) ==> Digits(s, value, afterDigit) == Digits(Ciphers(s), value, afterDigit)
    decreases |s|
  {
    if s != [] {
      NumeralTail(s);
      if IsDigit(s[0]) {
        DigitsIff(s[1..], 10 * value + DigitValue(s[0]), true);
      } else if s[0] == 95 && afterDigit {
        DigitsIff(s[1..], value, false);
        if s[1..] != [] {
          NumeralTail(s[1..]);
        }
        CiphersGoOn(Ciphers(s[1..]), value);
      }
    }
  }

  lemma CiphersGoOn(s: Bytes, value: nat)
    ensures s != [] ==> Digits(s, value, false) == Digits(s, value, true) || s[0] == 95
  {
  }

  /** A status is a numeral with or without a sign, and with any spaces around. */
  lemma ParseIntIff(text: Bytes)
    ensures ParseInt(text).Some? <==>
      var s := TrimBytes(text);
      IsNumeral(s) || (s != [] && (s[0] == 43 || s[0] == 45) && IsNumeral(s[1..]))
  {
    var s := TrimBytes(text);
    DigitsIff(s, 0, false);
    if s != [] {
      DigitsIff(s[1..], 0, false);
    }
  }

  lemma NothingToTrim(s: Bytes)
    requires s != [] && !IsSpaceByte(s[0]) && !IsSpaceByte(s[|s| - 1])
    ensures TrimBytes(s) == s
  {
  }

  /** A minus sign negates the number, and a plus sign does not. */
  lemma SignedNumerals(s: Bytes)
    requires IsNumeral(s)
    ensures ParseInt(s).Some? && Some(ParseInt(s).value) == Digits(Ciphers(s), 0, false)
    ensures ParseInt([43] + s) == ParseInt(s) && ParseInt([45] + s) == Some(-ParseInt(s).value)
  {
    var plus, minus := [43] + s, [45] + s;
    DigitsIff(s, 0, false);
    NothingToTrim(s);
    NothingToTrim(plus);
    NothingToTrim(minus);
    assert plus[1..] == s && minus[1..] == s;
  }

  /** Bytes of space around a text are not part of it. */
  lemma SpacesAreTrimmed(s: Bytes, space: byte)
    requires s != [] && !IsSpaceByte(s[0]) && !IsSpaceByte(s[|s| - 1])
    requires 9 <= space <= 13 || 28 <= space <= 32
    ensures TrimBytes([space] + s) == s && TrimBytes(s + [space]) == s
  {
    NothingToTrim(s);
    assert ([space] + s)[1..] == s && (s + [space])[..|s|] == s;
  }

  // Responses

  function WithFrame(printable: Printable, content: Content, f: Frame): Result<Content, ParseError> {
    if f.flag >= 128 then Success(content.(trailers := WithLines(content.trailers, SplitLines(f.payload))))
    else
      match Decode(printable, f.payload)
      case Failure(e) => Failure(BadMessage(e))
      case Success(fields) => Success(content.(messages := content.messages + [fields]))
  }

  function FrameStep(printable: Printable): (Content, Frame) -> Result<Content, ParseError> {
    (content, f) => WithFrame(printable, content, f)
  }

  function Concluded(content: Content): Result<Response, ParseError> {
    if GRPC_STATUS !in content.trailers then Success(Response(content.messages, content.trailers, None))
    else
      match ParseInt(content.trailers[GRPC_STATUS])
      case None => Failure(BadStatus)
      case Some(code) => Success(Response(content.messages, content.trailers, Some(code)))
  }

  /** What a body means: its frames taken in order, then the status among the trailers. */
  function Meaning(printable: Printable, body: Bytes): Result<Response, ParseError> {
    var content :- Gathered(printable, Content([], map[]), body);
    Concluded(content)
  }

  /** Takes the frames of the body one by one. */
  function Gathered(printable: Printable, content: Content, body: Bytes): Result<Content, ParseError>
    decreases |body|
  {
    if |body| < 5 then Success(content)
    else
      var frame := ReadFrame(body).value;
      match WithFrame(printable, content, frame.value)
      case Failure(e) => Failure(e)
      case Success(next) => Gathered(printable, next, Drop(body, frame.size))
  }

  lemma {:induction false} GatheredIsSteps(printable: Printable, content: Content, body: Bytes)
    ensures Frames(body).Success?
    ensures Gathered(printable, content, body) == Steps(FrameStep(printable), content, Frames(body).value)
    decreases |body|
  {
    FramesSucceed(body);
    if |body| >= 5 {
      var frame := ReadFrame(body).value;
      var rest := Drop(body, frame.size);
      FramesSucceed(rest);
      StepsFromFirst(FrameStep(printable), content, frame.value, Frames(rest).value);
      if WithFrame(printable, content, frame.value).Success? {
        GatheredIsSteps(printable, WithFrame(printable, content, frame.value).value, rest);
      }
    }
  }

  method ParseResponse(printable: Printable, body: Bytes) returns (r: Result<Response, ParseError>)
    ensures r == Meaning(printable, body)
  {
    var content :- GatherFrames(printable, body);
    r := Conclude(content);
  }

  method GatherFrames(printable: Printable, body: Bytes) returns (r: Result<Content, ParseError>)
    ensures r == Gathered(printable, Content([], map[]), body)
  {
    var content, i: nat := Content([], map[]), 0;
    while i + 5 <= |body|
      invariant Gathered(printable, Content([], map[]), body) == Gathered(printable, content, Drop(body, i))
      decreases |body| - i
    {
      var frame, next := FrameAt(body, i);
      GatheredFromFirst(printable, content, body, i, frame, next);
      content :- TakeFrame(printable, content, frame);
      i := next;
    }
    r := Success(content);
  }

  method FrameAt(body: Bytes, i: nat) returns (frame: Frame, next: nat)
    requires i + 5 <= |body|
    ensures next > i && ReadFrame(body[i..]) == Success(Piece(frame, next - i))
  {
    var length := ReadUint32(body[i + 1..i + 5]);
    frame, next := Frame(body[i], Take(body[i + 5..], length)), i + 5 + length;
    assert body[i..][1..5] == body[i + 1..i + 5] && body[i..][5..] == body[i + 5..];
  }

  lemma GatheredFromFirst(printable: Printable, content: Content, body: Bytes, i: nat, frame: Frame, next: nat)
    requires i + 5 <= |body| && next > i && ReadFrame(body[i..]) == Success(Piece(frame, next - i))
    ensures var taken := WithFrame(printable, content, frame);
            Gathered(printable, content, Drop(body, i)) ==
              if taken.Failure? then Failure(taken.error) else Gathered(printable, taken.value, Drop(body, next))
  {
    assert Drop(body[i..], next - i) == Drop(body, next);
  }

  /** One turn of the parsing loop. */
  method TakeFrame(printable: Printable, content: Content, frame: Frame) returns (r: Result<Content, ParseError>)
    ensures r == WithFrame(printable, content, frame)
  {
    if frame.flag >= 128 {
      var trailers := AddTrailers(content.trailers, frame.payload);
      return Success(content.(trailers := trailers));
    }
    var message := DecodeMessage(printable, frame.payload);
    if message.Failure? {
      return Failure(BadMessage(message.error));
    }
    r := Success(content.(messages := content.messages + [message.value]));
  }

  method Conclude(content: Content) returns (r: Result<Response, ParseError>)
    ensures r == Concluded(content)
  {
    var status := None;
    if GRPC_STATUS in content.trailers {
      status := ParseInt(content.trailers[GRPC_STATUS]);
      if status.None? {
        return Failure(BadStatus);
      }
    }
    r := Success(Response(content.messages, content.trailers, status));
  }

  // Responses written by a server: one frame a message, then one trailer frame

  datatype Header = Header(name: Bytes, value: Bytes)

  /** A header that can be sent: no colon in its name, and all on one line. */
  predicate Sendable(h: Header) {
    COLON !in h.name && !HasCrlf(HeaderLine(h))
  }

  /** A header as it is kept: trimmed, its name in lower case. */
  function Normal(h: Header): Header {
    Header(Lower(TrimBytes(h.name)), TrimBytes(h.value))
  }

  function HeaderLine(h: Header): Bytes {
    h.name + [COLON] + h.value
  }

  function HeaderText(headers: seq<Header>): Bytes {
    if headers == [] then [] else HeaderLine(headers[0]) + CRLF + HeaderText(headers[1..])
  }

  /** The headers as they are kept; later ones replace earlier ones of the same name. */
  function HeaderMap(headers: seq<Header>): Trailers {
    if headers == [] then map[]
    else
      var last := Normal(headers[|headers| - 1]);
      HeaderMap(headers[..|headers| - 1])[last.name := last.value]
  }

  lemma {:induction false} SplitHeaderText(headers: seq<Header>)
    requires forall h | h in headers :: Sendable(h)
    ensures SplitLines(HeaderText(headers)) == Map(HeaderLine, headers) + [[]]
  {
    if headers == [] {
      assert Map(HeaderLine, headers) + [[]] == [[]];
    } else {
      assert Sendable(headers[0]);
      SplitAfterLine(HeaderLine(headers[0]), HeaderText(headers[1..]));
      SplitHeaderText(headers[1..]);
      assert Map(HeaderLine, headers) == [HeaderLine(headers[0])] + Map(HeaderLine, headers[1..]);
    }
  }

  lemma HeaderIsKept(trailers: Trailers, h: Header)
    requires Sendable(h)
    ensures WithLine(trailers, HeaderLine(h)) == trailers[Normal(h).name := Normal(h).value]
  {
    var line := HeaderLine(h);
    IndexAfter(h.name, COLON, h.value);
    assert line[..|h.name|] == h.name && line[|h.name| + 1..] == h.value;
  }

  lemma {:induction false} HeaderLinesGiveTheirMap(headers: seq<Header>)
    requires forall h | h in headers :: Sendable(h)
    ensures WithLines(map[], Map(HeaderLine, headers)) == HeaderMap(headers)
  {
    if headers != [] {
      var n := |headers| - 1;
      HeaderLinesGiveTheirMap(headers[..n]);
      assert Map(HeaderLine, headers)[..n] == Map(HeaderLine, headers[..n]);
      HeaderIsKept(HeaderMap(headers[..n]), headers[n]);
    }
  }

  function DataFrame(items: seq<Item>): Frame {
    Frame(0, MessageBytes(items))
  }

  function ResponseFrames(messages: seq<seq<Item>>, headers: seq<Header>): seq<Frame> {
    Map(DataFrame, messages) + [Frame(0x80, HeaderText(headers))]
  }

  function FieldsOf(printable: Printable, items: seq<Item>): seq<Field> {
    Map(item => Surfaced(printable, item), items)
  }

  lemma DataFrameGivesItsMessage(printable: Printable, content: Content, items: seq<Item>)
    ensures FrameStep(printable)(content, DataFrame(items))
         == Success(content.(messages := content.messages + [FieldsOf(printable, items)]))
  {
    MessageRoundTrip(printable, items);
  }

  function WithMessage(printable: Printable): (Content, seq<Item>) -> Content {
    (content: Content, items) => content.(messages := content.messages + [FieldsOf(printable, items)])
  }

  lemma {:induction false} MessagesGathered(printable: Printable, messages: seq<seq<Item>>, content: Content)
    ensures Fold(WithMessage(printable), content, messages)
         == content.(messages := content.messages + Map(m => FieldsOf(printable, m), messages))
    decreases |messages|
  {
    var view := m => FieldsOf(printable, m);
    if messages == [] {
      assert content.messages + Map(view, messages) == content.messages;
    } else {
      var next := WithMessage(printable)(content, messages[0]);
      MessagesGathered(printable, messages[1..], next);
      assert Map(view, messages) == [view(messages[0])] + Map(view, messages[1..]);
      assert next.messages + Map(view, messages[1..]) == content.messages + Map(view, messages);
    }
  }

  lemma {:induction false} DataFramesGiveTheirMessages(
      printable: Printable, messages: seq<seq<Item>>, content: Content, rest: seq<Frame>)
    ensures Steps(FrameStep(printable), content, Map(DataFrame, messages) + rest)
         == Steps(FrameStep(printable), Fold(WithMessage(printable), content, messages), rest)
  {
    var step, gather, write := FrameStep(printable), WithMessage(printable), (m: seq<Item>) => DataFrame(m);
    forall c, m
      ensures step(c, write(m)) == Success(gather(c, m))
    {
      DataFrameGivesItsMessage(printable, c, m);
    }
    StepsOverWritten(step, write, gather, content, messages, rest);
    assert Map(write, messages) == Map(DataFrame, messages);
  }

  lemma TrailerFrameGivesItsMap(printable: Printable, messages: seq<seq<Field>>, headers: seq<Header>)
    requires forall h | h in headers :: Sendable(h)
    ensures Steps(FrameStep(printable), Content(messages, map[]), [Frame(0x80, HeaderText(headers))])
         == Success(Content(messages, HeaderMap(headers)))
  {
    SplitHeaderText(headers);
    HeaderLinesGiveTheirMap(headers);
    var lines := Map(HeaderLine, headers);
    assert (lines + [[]])[..|lines|] == lines;
    StepsFromFirst(FrameStep(printable), Content(messages, map[]), Frame(0x80, HeaderText(headers)), []);
  }

  /** Parsing what a server sent gives its messages in order and its trailers, whatever short tail follows. */
  lemma {:induction false} ResponseRoundTrip(
      printable: Printable, messages: seq<seq<Item>>, headers: seq<Header>, tail: Bytes)
    requires forall f | f in ResponseFrames(messages, headers) :: Fits(f)
    requires forall h | h in headers :: Sendable(h)
    requires |tail| < 5
    ensures Meaning(printable, FlatMap(FrameBytes, ResponseFrames(messages, headers)) + tail)
         == Concluded(Content(Map(m => FieldsOf(printable, m), messages), HeaderMap(headers)))
  {
    FramesRoundTrip(ResponseFrames(messages, headers), tail);
    GatheredIsSteps(printable, Content([], map[]), FlatMap(FrameBytes, ResponseFrames(messages, headers)) + tail);
    DataFramesGiveTheirMessages(printable, messages, Content([], map[]), [Frame(0x80, HeaderText(headers))]);
    MessagesGathered(printable, messages, Content([], map[]));
    var decoded := Map(m => FieldsOf(printable, m), messages);
    assert [] + decoded == decoded;
    TrailerFrameGivesItsMap(printable, decoded, headers);
  }

  /** A header that tells the status, in whatever case and with whatever spaces around. */
  predicate TellsStatus(h: Header, code: nat) {
    Sendable(h) && Normal(h) == Header(GRPC_STATUS, Decimal(code))
  }

  /** With the status sent last among the trailers, that status is the one reported. */
  lemma {:induction false} ReportedStatus(
      printable: Printable, messages: seq<seq<Item>>, others: seq<Header>, status: Header, code: nat, tail: Bytes)
    requires forall f | f in ResponseFrames(messages, others + [status]) :: Fits(f)
    requires (forall h | h in others :: Sendable(h)) && TellsStatus(status, code) && |tail| < 5
    ensures Meaning(printable, FlatMap(FrameBytes, ResponseFrames(messages, others + [status])) + tail)
         == Success(Response(Map(m => FieldsOf(printable, m), messages), HeaderMap(others + [status]), Some(code)))
  {
    StatusRoundTrip(code);
    ResponseRoundTrip(printable, messages, others + [status], tail);
    assert (others + [status])[..|others|] == others;
  }

  // Which status is reported

  /** A response has a status exactly when a trailer of that name came, and then it is the number in it; a trailer
      that is no number is an error, and the messages and trailers are those gathered. */
  lemma StatusIsThatOfTheTrailer(printable: Printable, body: Bytes)
    ensures Meaning(printable, body).Success? ==>
      var r := Meaning(printable, body).value;
      && (r.status.None? <==> GRPC_STATUS !in r.trailers)
      && (GRPC_STATUS in r.trailers ==> r.status == ParseInt(r.trailers[GRPC_STATUS]))
    ensures Meaning(printable, body) == Failure(BadStatus) <==>
      var content := Gathered(printable, Content([], map[]), body);
      && content.Success?
      && GRPC_STATUS in content.value.trailers && ParseInt(content.value.trailers[GRPC_STATUS]).None?
    ensures var content := Gathered(printable, Content([], map[]), body);
            && (content.Failure? ==> Meaning(printable, body) == Failure(content.error))
            && (Meaning(printable, body).Success? ==>
                  && content.Success?
                  && Meaning(printable, body).value.messages == content.value.messages
                  && Meaning(printable, body).value.trailers == content.value.trailers)
  {
    GatheringFailsOnMessages(printable, Content([], map[]), body);
  }

  lemma {:induction false} GatheringFailsOnMessages(printable: Printable, content: Content, body: Bytes)
    ensures Gathered(printable, content, body) != Failure(BadStatus)
    decreases |body|
  {
    if |body| >= 5 {
      var frame := ReadFrame(body).value;
      var next := WithFrame(printable, content, frame.value);
      if next.Success? {
        GatheringFailsOnMessages(printable, next.value, Drop(body, frame.size));
      }
    }
  }

  /** Without a trailer frame there are no trailers and no status. */
  lemma NoTrailersNoStatus(printable: Printable, messages: seq<seq<Item>>, tail: Bytes)
    requires forall m | m in messages :: Fits(DataFrame(m))
    requires |tail| < 5
    ensures Meaning(printable, FlatMap(FrameBytes, Map(DataFrame, messages)) + tail)
         == Success(Response(Map(m => FieldsOf(printable, m), messages), map[], None))
  {
    var frames, empty := Map(DataFrame, messages), Content([], map[]);
    var body := FlatMap(FrameBytes, frames) + tail;
    FramesRoundTrip(frames, tail);
    GatheredIsSteps(printable, empty, body);
    assert frames + [] == frames;
    DataFramesGiveTheirMessages(printable, messages, empty, []);
    MessagesGathered(printable, messages, empty);
    var decoded := Map(m => FieldsOf(printable, m), messages);
    assert [] + decoded == decoded;
  }

  /** With trailers none of which is the status, they are reported without one. */
  lemma OtherTrailersNoStatus(printable: Printable, messages: seq<seq<Item>>, headers: seq<Header>, tail: Bytes)
    requires forall f | f in ResponseFrames(messages, headers) :: Fits(f)
    requires (forall h | h in headers :: Sendable(h) && Normal(h).name != GRPC_STATUS) && |tail| < 5
    ensures Meaning(printable, FlatMap(FrameBytes, ResponseFrames(messages, headers)) + tail)
         == Success(Response(Map(m => FieldsOf(printable, m), messages), HeaderMap(headers), None))
  {
    ResponseRoundTrip(printable, messages, headers, tail);
    NamesInMap(headers);
  }

  lemma {:induction false} NamesInMap(headers: seq<Header>)
    ensures forall name :: name in HeaderMap(headers) <==> exists h :: h in headers && Normal(h).name == name
  {
    if headers != [] {
      var n := |headers| - 1;
      NamesInMap(headers[..n]);
      assert headers == headers[..n] + [headers[n]];
    }
  }

  /** A status sent last that is no number makes the response an error. */
  lemma BadStatusIsReported(
      printable: Printable, messages: seq<seq<Item>>, others: seq<Header>, status: Header, tail: Bytes)
    requires forall f | f in ResponseFrames(messages, others + [status]) :: Fits(f)
    requires (forall h | h in others + [status] :: Sendable(h)) && |tail| < 5
    requires Normal(status).name == GRPC_STATUS && ParseInt(Normal(status).value).None?
    ensures Meaning(printable, FlatMap(FrameBytes, ResponseFrames(messages, others + [status])) + tail)
         == Failure(BadStatus)
  {
    ResponseRoundTrip(printable, messages, others + [status], tail);
    assert (others + [status])[..|others|] == others;
  }

  // Frames of either kind, and bad ones

  lemma GatheredFrame(printable: Printable, content: Content, f: Frame, rest: Bytes)
    requires Fits(f)
    ensures var taken := WithFrame(printable, content, f);
            Gathered(printable, content, FrameBytes(f) + rest)
            == if taken.Failure? then Failure(taken.error) else Gathered(printable, taken.value, rest)
  {
    FrameRoundTrip(f, rest);
    assert Drop(FrameBytes(f) + rest, 5 + |f.payload|) == rest;
  }

  /** The high bit of the flag tells a trailer frame from a data frame, whatever the other bits are. */
  lemma FlagTellsKind(printable: Printable, flag: byte, headers: seq<Header>, items: seq<Item>)
    requires (forall h | h in headers :: Sendable(h)) && |HeaderText(headers)| < LENGTH_LIMIT
    requires |MessageBytes(items)| < LENGTH_LIMIT
    ensures flag >= 128 ==>
              Gathered(printable, Content([], map[]), FrameBytes(Frame(flag, HeaderText(headers))))
              == Success(Content([], HeaderMap(headers)))
    ensures flag < 128 ==>
              Gathered(printable, Content([], map[]), FrameBytes(Frame(flag, MessageBytes(items))))
              == Success(Content([FieldsOf(printable, items)], map[]))
  {
    var f := if flag >= 128 then Frame(flag, HeaderText(headers)) else Frame(flag, MessageBytes(items));
    assert FrameBytes(f) + [] == FrameBytes(f);
    GatheredFrame(printable, Content([], map[]), f, []);
    if flag >= 128 {
      SplitHeaderText(headers);
      HeaderLinesGiveTheirMap(headers);
      var lines := Map(HeaderLine, headers);
      assert (lines + [[]])[..|lines|] == lines;
    } else {
      MessageRoundTrip(printable, items);
      assert [] + [FieldsOf(printable, items)] == [FieldsOf(printable, items)];
    }
  }

  /** The first message that does not decode makes the response an error, whatever comes after it. */
  lemma {:induction false} BadMessageIsReported(
      printable: Printable, content: Content, messages: seq<seq<Item>>, bad: Frame, rest: Bytes)
    requires (forall m | m in messages :: Fits(DataFrame(m))) && Fits(bad)
    requires bad.flag < 128 && Decode(printable, bad.payload).Failure?
    ensures Gathered(printable, content, FlatMap(FrameBytes, Map(DataFrame, messages)) + (FrameBytes(bad) + rest))
         == Failure(BadMessage(Decode(printable, bad.payload).error))
    decreases |messages|
  {
    var frames, last := Map(DataFrame, messages), FrameBytes(bad) + rest;
    if messages == [] {
      assert FlatMap(FrameBytes, frames) + last == last;
      GatheredFrame(printable, content, bad, rest);
    } else {
      var others := Map(DataFrame, messages[1..]);
      assert frames[0] == DataFrame(messages[0]) && frames[1..] == others;
      Associative(FrameBytes(frames[0]), FlatMap(FrameBytes, others), last);
      GatheredFrame(printable, content, frames[0], FlatMap(FrameBytes, others) + last);
      DataFrameGivesItsMessage(printable, content, messages[0]);
      var next := content.(messages := content.messages + [FieldsOf(printable, messages[0])]);
      assert WithFrame(printable, content, frames[0]) == FrameStep(printable)(content, frames[0]) == Success(next);
      BadMessageIsReported(printable, next, messages[1..], bad, rest);
    }
  }

  lemma StatusNameIsNormal()
    ensures GRPC_STATUS == Ascii("grpc-status")
    ensures Lower(TrimBytes(GRPC_STATUS)) == GRPC_STATUS && COLON !in GRPC_STATUS && 13 !in GRPC_STATUS
  {
    assert TrimBytes(GRPC_STATUS) == GRPC_STATUS && Lower(GRPC_STATUS) == GRPC_STATUS;
  }

  /** "grpc-status:0", and the same with a space after the colon, tell the status. */
  lemma UsualStatusHeaders(code: nat)
    ensures TellsStatus(Header(GRPC_STATUS, Decimal(code)), code)
    ensures TellsStatus(Header(GRPC_STATUS, [32] + Decimal(code)), code)
  {
    var value := Decimal(code);
    StatusRoundTrip(code);
    StatusNameIsNormal();
    assert 13 !in value;
    assert HeaderLine(Header(GRPC_STATUS, value)) == GRPC_STATUS + [COLON] + value;
    assert HeaderLine(Header(GRPC_STATUS, [32] + value)) == GRPC_STATUS + [COLON] + ([32] + value);
    NoCrlfWithoutCr(HeaderLine(Header(GRPC_STATUS, value)));
    NoCrlfWithoutCr(HeaderLine(Header(GRPC_STATUS, [32] + value)));
    assert ([32] + value)[1..] == value && TrimBytes([32] + value) == TrimBytes(value);
  }

  lemma NoCrlfWithoutCr(s: Bytes)
    requires 13 !in s
    ensures !HasCrlf(s)
  {
  }
}
