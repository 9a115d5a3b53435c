/** The header-and-content framing of the Language Server Protocol's base protocol: a length-delimited
    writer and the reader that takes its output apart again. */
module LspFraming {
  import opened Numbers
  import opened Options
  import opened Strings
  import opened Bytes

  const USIZE_MAX: nat := 0xFFFF_FFFF_FFFF_FFFF

  datatype LspError =
    | UnexpectedEof
    | InvalidText
    | InvalidContentLength(value: string)
    | InvalidHeader(line: string)
    | MissingContentLength
    | InvalidJson(reason: string)

  // ----- Decimal numbers

  function DigitsValue(s: string): nat {
    if s == "" then 0
    else
      var last := s[|s| - 1];
      10 * DigitsValue(s[..|s| - 1]) + if IsDigit(last) then last as int - '0' as int else 0
  }

  /** `str::parse::<usize>`: decimal digits after an optional plus sign, within 64 bits. */
  function ParseUsize(s: string): Option<nat> {
    var digits := if s != "" && s[0] == '+' then s[1..] else s;
    if digits == "" || exists c <- digits :: !IsDigit(c) then None
    else if DigitsValue(digits) > USIZE_MAX then None
    else Some(DigitsValue(digits))
  }

  lemma {:induction false} DecimalDigits(n: nat)
    ensures forall i :: 0 <= i < |Decimal(n)| ==> IsDigit(Decimal(n)[i])
    ensures DigitsValue(Decimal(n)) == n
  {
    if n >= 10 {
      DecimalDigits(n / 10);
      assert Decimal(n)[..|Decimal(n)| - 1] == Decimal(n / 10);
    }
  }

  /** Parsing inverts printing for every length a machine can hold. */
  lemma ParseInvertsDecimal(n: nat)
    requires n <= USIZE_MAX
    ensures ParseUsize(Decimal(n)) == Some(n)
  {
    DecimalDigits(n);
  }

  // ----- Lines and headers

  function FirstLf(input: seq<byte>, from: nat): (i: nat)
    requires from <= |input|
    ensures from <= i <= |input| && (forall j :: from <= j < i ==> input[j] != LF) && (i < |input| ==> input[i] == LF)
    decreases |input| - from
  {
    if from == |input| || input[from] == LF then from else FirstLf(input, from + 1)
  }

  /** The length of what `read_line` takes: up to and with the first line feed, or everything. */
  function LineLength(input: seq<byte>): (n: nat)
    ensures n <= |input| && (input != [] ==> n > 0)
  {
    var i := FirstLf(input, 0);
    if i < |input| then i + 1 else i
  }

  /** `trim_end_matches(['\r', '\n'])`. */
  function TrimLineEnd(s: string): string {
    if s != "" && (s[|s| - 1] == '\r' || s[|s| - 1] == '\n') then TrimLineEnd(s[..|s| - 1]) else s
  }

  function ColonAt(s: string, from: nat): (i: nat)
    requires from <= |s|
    ensures from <= i <= |s| && (forall j :: from <= j < i ==> s[j] != ':') && (i < |s| ==> s[i] == ':')
    decreases |s| - from
  {
    if from == |s| || s[from] == ':' then from else ColonAt(s, from + 1)
  }

  /** The effect of one header line on the content length. */
  function HeaderLine(line: string, length: Option<nat>): Result<Option<nat>, LspError> {
    var trimmed := TrimLineEnd(line);
    var colon := ColonAt(trimmed, 0);
    if colon == |trimmed| then Err(InvalidHeader(trimmed))
    else if EqIgnoreAsciiCase(trimmed[..colon], "Content-Length") then
      var value := Trim(trimmed[colon + 1..]);
      var parsed := ParseUsize(value);
      if parsed.None? then Err(InvalidContentLength(value)) else Ok(parsed)
    else Ok(length)
  }

  datatype Headers = Closed | Failed(error: LspError) | Length(length: Option<nat>)

  /** The header part: its outcome and the bytes left. `utf8` is strict UTF-8 decoding. */
  function ReadHeaders(utf8: seq<byte> -> Option<string>, input: seq<byte>, length: Option<nat>)
    : (r: (Headers, seq<byte>))
    ensures |r.1| <= |input| && (r.0.Length? ==> |r.1| < |input|)
    decreases |input|
  {
    var n := LineLength(input);
    var rest := input[n..];
    if n == 0 then (Closed, rest)
    else
      var line := utf8(input[..n]);
      if line.None? then (Failed(InvalidText), rest)
      else if line.value == "\r\n" then (Length(length), rest)
      else
        var next := HeaderLine(line.value, length);
        if next.Err? then (Failed(next.error), rest) else ReadHeaders(utf8, rest, next.value)
  }

  lemma ReadHeadersStep(utf8: seq<byte> -> Option<string>, input: seq<byte>, length: Option<nat>)
    ensures var n := LineLength(input); var line, rest := utf8(input[..n]), input[n..];
            ReadHeaders(utf8, input, length) ==
              if n == 0 then (Closed, rest)
              else if line.None? then (Failed(InvalidText), rest)
              else if line.value == "\r\n" then (Length(length), rest)
              else if HeaderLine(line.value, length).Err? then (Failed(HeaderLine(line.value, length).error), rest)
              else ReadHeaders(utf8, rest, HeaderLine(line.value, length).value)
  {
    hide HeaderLine, LineLength;
  }

  function ReadBody(length: Option<nat>, input: seq<byte>): (r: (Result<Option<seq<byte>>, LspError>, seq<byte>))
    ensures |r.1| <= |input|
  {
    if length.None? then (Err(MissingContentLength), input)
    else if length.value > |input| then (Err(UnexpectedEof), [])
    else (Ok(Some(input[..length.value])), input[length.value..])
  }

  /** One message: its body, the end of input, or an error; and the bytes left. */
  function TakeMessage(utf8: seq<byte> -> Option<string>, input: seq<byte>)
    : (r: (Result<Option<seq<byte>>, LspError>, seq<byte>))
    ensures r.0.Ok? && r.0.value.Some? ==> |r.1| < |input|
  {
    var (headers, rest) := ReadHeaders(utf8, input, None);
    match headers
    case Closed => (Ok(None), rest)
    case Failed(error) => (Err(error), rest)
    case Length(length) => ReadBody(length, rest)
  }

  /** What comes from elsewhere: strict UTF-8 decoding and JSON. */
  datatype Decoder<V> = Decoder(utf8: seq<byte> -> Option<string>, json: seq<byte> -> Result<V, string>)

  function DecodedBody<V>(d: Decoder<V>, body: Result<Option<seq<byte>>, LspError>): Result<Option<V>, LspError> {
    if body.Err? then Err(body.error)
    else if body.value.None? then Ok(None)
    else
      match d.json(body.value.value)
      case Err(reason) => Err(InvalidJson(reason))
      case Ok(message) => Ok(Some(message))
  }

  class Reader<V(!new)> {
    var input: seq<byte>
    const decoder: Decoder<V>

    constructor (input: seq<byte>, decoder: Decoder<V>)
      ensures this.input == input && this.decoder == decoder
    {
      this.input := input;
      this.decoder := decoder;
    }

    method ReadLine() returns (line: seq<byte>)
      modifies this`input
      ensures line == old(input)[..LineLength(old(input))] && input == old(input)[LineLength(old(input))..]
    {
      var n := LineLength(input);
      line := input[..n];
      input := input[n..];
    }

    method ReadMessage() returns (r: Result<Option<V>, LspError>)
      modifies this`input
      ensures var taken := TakeMessage(decoder.utf8, old(input));
              (r, input) == (DecodedBody(decoder, taken.0), taken.1)
    {
      hide Trim, TrimLineEnd, ParseUsize, ColonAt, EqIgnoreAsciiCase, LineLength, ReadHeaders;
      var contentLength: Option<nat> := None;
      ghost var all := input;
      while true
        invariant ReadHeaders(decoder.utf8, all, None) == ReadHeaders(decoder.utf8, input, contentLength)
        decreases |input|
      {
        ReadHeadersStep(decoder.utf8, input, contentLength);
        var bytes := ReadLine();
        if bytes == [] {
          return Ok(None);
        }
        var line := decoder.utf8(bytes);
        if line.None? {
          return Err(InvalidText);
        }
        if line.value == "\r\n" {
          break;
        }
        var trimmed := TrimLineEnd(line.value);
        var colon := ColonAt(trimmed, 0);
        if colon < |trimmed| {
          if EqIgnoreAsciiCase(trimmed[..colon], "Content-Length") {
            var value := Trim(trimmed[colon + 1..]);
            var parsed := ParseUsize(value);
            if parsed.None? {
              return Err(InvalidContentLength(value));
            }
            contentLength := parsed;
          }
        } else {
          return Err(InvalidHeader(trimmed));
        }
      }
      if contentLength.None? {
        return Err(MissingContentLength);
      }
      if contentLength.value > |input| {
        input := [];
        return Err(UnexpectedEof);
      }
      var body := input[..contentLength.value];
      input := input[contentLength.value..];
      match decoder.json(body) {
        case Err(reason) => return Err(InvalidJson(reason));
        case Ok(message) => return Ok(Some(message));
      }
    }

    /** The reader task's loop: messages until the end of input or an error. */
    method ReadUntilClosed() returns (messages: seq<V>, end: Option<LspError>)
      modifies this`input
      ensures (messages, end) == ReadAll(decoder, old(input))
    {
      hide TakeMessage, DecodedBody;
      messages := [];
      assert [] + ReadAll(decoder, input).0 == ReadAll(decoder, input).0;
      while true
        invariant var later := ReadAll(decoder, input); ReadAll(decoder, old(input)) == (messages + later.0, later.1)
        decreases |input|
      {
        ghost var before := input;
        ReadAllStep(decoder, before);
        var r := ReadMessage();
        assert messages + [] == messages;
        match r {
          case Err(error) => return messages, Some(error);
          case Ok(message) =>
            if message.None? {
              return messages, None;
            }
            ghost var later := ReadAll(decoder, input);
            assert messages + ([message.value] + later.0) == messages + [message.value] + later.0;
            messages := messages + [message.value];
        }
      }
    }
  }

  lemma ReadAllStep<V>(d: Decoder<V>, input: seq<byte>)
    ensures var (body, rest) := TakeMessage(d.utf8, input);
            var message := DecodedBody(d, body);
            if message.Err? then ReadAll(d, input) == ([], Some(message.error))
            else if message.value.None? then ReadAll(d, input) == ([], None)
            else |rest| < |input|
                 && ReadAll(d, input) == ([message.value.value] + ReadAll(d, rest).0, ReadAll(d, rest).1)
  {
    hide ReadHeaders, ReadBody;
  }

  // ----- Writing

  function HeaderText(length: nat): string {
    "Content-Length: " + Decimal(length) + "\r\n"
  }

  /** The bytes of one message on the wire. */
  function Frame(body: seq<byte>): seq<byte> {
    Encode(HeaderText(|body|)) + (Encode("\r\n") + body)
  }

  class Writer {
    var output: seq<byte>

    constructor ()
      ensures output == []
    {
      output := [];
    }

    method SendMessage(body: seq<byte>)
      modifies this
      ensures output == old(output) + Frame(body)
    {
      EncodeConcat(HeaderText(|body|), "\r\n");
      hide Encode, HeaderText;
      output := output + Encode(HeaderText(|body|) + "\r\n");
      output := output + body;
    }
  }

  function Frames(bodies: seq<seq<byte>>): seq<byte> {
    if bodies == [] then [] else Frame(bodies[0]) + Frames(bodies[1..])
  }

  // ----- Reading what was written

  /** A header line with no line feed inside is taken whole. */
  lemma LineTaken(text: string, rest: seq<byte>)
    requires '\n' !in text
    ensures var line := Encode(text + "\n");
            LineLength(line + rest) == |line| && (line + rest)[..|line|] == line && (line + rest)[|line|..] == rest
  {
    EncodeConcat(text, "\n");
    EncodeOne('\n');
    AsciiOnlyFromItself(text, '\n');
    hide Encode;
    var a := Encode(text);
    var s := a + [LF] + rest;
    assert s[|a|] == LF;
    var i := FirstLf(s, 0);
    assert i == |a|;
  }

  lemma {:induction false} DecimalPlain(n: nat)
    ensures forall i :: 0 <= i < |Decimal(n)| ==> '0' <= Decimal(n)[i] <= '9'
  {
    DecimalDigits(n);
  }

  lemma TrimDigits(digits: string)
    requires digits != "" && forall i :: 0 <= i < |digits| ==> '0' <= digits[i] <= '9'
    ensures Trim(" " + digits) == digits
  {
    assert (" " + digits)[1..] == digits;
    assert !IsWhitespace(digits[0]) && !IsWhitespace(digits[|digits| - 1]);
    assert TrimStart(digits) == digits && TrimEnd(digits) == digits;
    assert TrimStart(" " + digits) == digits;
  }

  lemma TrimOne(s: string, c: char)
    ensures TrimLineEnd(s + [c]) == if c == '\r' || c == '\n' then TrimLineEnd(s) else s + [c]
  {
    assert (s + [c])[..|s|] == s;
  }

  lemma TrimCrLf(s: string)
    requires s == "" || (s[|s| - 1] != '\r' && s[|s| - 1] != '\n')
    ensures TrimLineEnd(s + "\r\n") == s
  {
    TrimOne(s, '\r');
    TrimOne(s + "\r", '\n');
    assert TrimLineEnd(s) == s;
    hide TrimLineEnd;
    assert s + "\r" + "\n" == s + "\r\n";
  }

  /** The colon of a header line is its first. */
  lemma ColonFound(name: string, value: string)
    requires ':' !in name
    ensures ColonAt(name + ":" + value, 0) == |name|
  {
    var s := name + ":" + value;
    assert s[|name|] == ':';
    assert forall i :: 0 <= i < |name| ==> s[i] == name[i];
  }

  /** A Content-Length header sets the length; any other well-formed header leaves it alone. */
  lemma HeaderLineMeaning(name: string, value: string, length: Option<nat>)
    requires ':' !in name
    requires value == "" || (value[|value| - 1] != '\r' && value[|value| - 1] != '\n')
    ensures HeaderLine(name + ":" + value + "\r\n", length) ==
              if EqIgnoreAsciiCase(name, "Content-Length") then
                if ParseUsize(Trim(value)).None? then Err(InvalidContentLength(Trim(value)))
                else Ok(ParseUsize(Trim(value)))
              else Ok(length)
  {
    hide Trim, ParseUsize, EqIgnoreAsciiCase, TrimLineEnd;
    var s := name + ":" + value;
    assert s[|s| - 1] == if value == "" then ':' else value[|value| - 1];
    TrimCrLf(s);
    ColonFound(name, value);
    assert s[..|name|] == name && s[|name| + 1..] == value;
  }

  lemma LengthHeader(n: nat, length: Option<nat>)
    requires n <= USIZE_MAX
    ensures HeaderLine(HeaderText(n), length) == Ok(Some(n))
  {
    DecimalPlain(n);
    ParseInvertsDecimal(n);
    TrimDigits(Decimal(n));
    var value := " " + Decimal(n);
    assert value[|value| - 1] == Decimal(n)[|Decimal(n)| - 1];
    hide Trim, ParseUsize, Decimal, HeaderLine;
    HeaderLineMeaning("Content-Length", value, length);
    assert "Content-Length" + ":" + value + "\r\n" == HeaderText(n);
  }

  /** Strict UTF-8 decoding gives back what was encoded. */
  ghost predicate DecodesUtf8(utf8: seq<byte> -> Option<string>) {
    forall s: string :: utf8(Encode(s)) == Some(s)
  }

  lemma HeadersStep(utf8: seq<byte> -> Option<string>, text: string, rest: seq<byte>, length: Option<nat>)
    requires DecodesUtf8(utf8) && '\n' !in text && HeaderLine(text + "\n", length).Ok? && text != "\r"
    ensures ReadHeaders(utf8, Encode(text + "\n") + rest, length)
         == ReadHeaders(utf8, rest, HeaderLine(text + "\n", length).value)
  {
    hide Encode, HeaderLine, LineLength;
    LineTaken(text, rest);
    var input := Encode(text + "\n") + rest;
    assert utf8(Encode(text + "\n")) == Some(text + "\n");
    assert (text + "\n")[..|text|] == text && "\r\n"[..1] == "\r";
    assert text + "\n" != "\r\n";
    assert Encode(text + "\n") != [] by { LineNotEmpty(text); }
  }

  lemma LineNotEmpty(text: string)
    ensures Encode(text + "\n") != []
  {
    EncodeConcat(text, "\n");
    EncodeOne('\n');
  }

  lemma HeadersEnd(utf8: seq<byte> -> Option<string>, rest: seq<byte>, length: Option<nat>)
    requires DecodesUtf8(utf8)
    ensures ReadHeaders(utf8, Encode("\r\n") + rest, length) == (Length(length), rest)
  {
    hide Encode, HeaderLine, LineLength;
    assert "\r\n" == "\r" + "\n";
    LineTaken("\r", rest);
    LineNotEmpty("\r");
    assert utf8(Encode("\r\n")) == Some("\r\n");
  }

  /** Any other header before the length, such as Content-Type, is skipped. */
  lemma OtherHeadersSkipped(utf8: seq<byte> -> Option<string>, name: string, value: string, rest: seq<byte>,
                            length: Option<nat>)
    requires DecodesUtf8(utf8) && ':' !in name && '\n' !in name && '\n' !in value
    requires (value == "" || value[|value| - 1] != '\r') && !EqIgnoreAsciiCase(name, "Content-Length")
    ensures ReadHeaders(utf8, Encode(name + ":" + value + "\r\n") + rest, length) == ReadHeaders(utf8, rest, length)
  {
    hide Encode, HeaderLine, LineLength, ReadHeaders, EqIgnoreAsciiCase, DecodesUtf8;
    HeaderLineMeaning(name, value, length);
    var text := name + ":" + value + "\r";
    assert text + "\n" == name + ":" + value + "\r\n";
    HeadersStep(utf8, text, rest, length);
  }

  lemma TakenBody(utf8: seq<byte> -> Option<string>, input: seq<byte>, n: nat, rest: seq<byte>)
    requires ReadHeaders(utf8, input, None) == (Length(Some(n)), rest)
    ensures TakeMessage(utf8, input) == ReadBody(Some(n), rest)
  {
    hide ReadHeaders;
  }

  /** Reading the two header lines that are sent leaves the body to be read. */
  lemma SentHeaders(utf8: seq<byte> -> Option<string>, n: nat, rest: seq<byte>)
    requires DecodesUtf8(utf8) && n <= USIZE_MAX
    ensures TakeMessage(utf8, Encode(HeaderText(n)) + (Encode("\r\n") + rest)) == ReadBody(Some(n), rest)
  {
    LengthHeader(n, None);
    HeaderTextFlat(n);
    hide Encode, HeaderLine, HeaderText, ReadHeaders, DecodesUtf8, TakeMessage, ReadBody;
    var text := HeaderText(n)[..|HeaderText(n)| - 1];
    assert text + "\n" == HeaderText(n);
    HeadersStep(utf8, text, Encode("\r\n") + rest, None);
    HeadersEnd(utf8, rest, Some(n));
    TakenBody(utf8, Encode(HeaderText(n)) + (Encode("\r\n") + rest), n, rest);
  }

  /** A frame is read back as its body, and nothing of what follows is touched. */
  lemma FrameRoundTrip(utf8: seq<byte> -> Option<string>, body: seq<byte>, rest: seq<byte>)
    requires DecodesUtf8(utf8) && |body| <= USIZE_MAX
    ensures TakeMessage(utf8, Frame(body) + rest) == (Ok(Some(body)), rest)
  {
    hide Encode, HeaderText, DecodesUtf8, TakeMessage;
    var n := |body|;
    SentHeaders(utf8, n, body + rest);
    assert Frame(body) + rest == Encode(HeaderText(n)) + (Encode("\r\n") + (body + rest));
    assert (body + rest)[..n] == body && (body + rest)[n..] == rest;
  }

  lemma HeaderTextFlat(n: nat)
    ensures var h := HeaderText(n);
            h != "" && h[|h| - 1] == '\n' && '\n' !in h[..|h| - 1] && h[..|h| - 1] != "\r"
  {
    DecimalPlain(n);
    hide Decimal;
    var h := HeaderText(n);
    assert h[..|h| - 1] == "Content-Length: " + Decimal(n) + "\r";
  }

  /** Reading messages until the input ends, or one is malformed or no JSON. */
  function ReadAll<V>(d: Decoder<V>, input: seq<byte>): (seq<V>, Option<LspError>)
    decreases |input|
  {
    var (body, rest) := TakeMessage(d.utf8, input);
    var message := DecodedBody(d, body);
    if message.Err? then ([], Some(message.error))
    else if message.value.None? then ([], None)
    else
      var (later, end) := ReadAll(d, rest);
      ([message.value.value] + later, end)
  }

  /** The messages in a list of bodies, up to the first that is no JSON. */
  function Messages<V>(d: Decoder<V>, bodies: seq<seq<byte>>): (seq<V>, Option<LspError>) {
    if bodies == [] then ([], None)
    else
      match d.json(bodies[0])
      case Err(reason) => ([], Some(InvalidJson(reason)))
      case Ok(message) =>
        var (later, end) := Messages(d, bodies[1..]);
        ([message] + later, end)
  }

  /** The concatenation of any frames reads back as the messages of their bodies in order, and then the
      end of input, whatever bytes the bodies hold; a body that is no JSON ends the reading. */
  lemma {:induction false} FramesRoundTrip<V>(d: Decoder<V>, bodies: seq<seq<byte>>)
    requires DecodesUtf8(d.utf8) && forall i :: 0 <= i < |bodies| ==> |bodies[i]| <= USIZE_MAX
    ensures ReadAll(d, Frames(bodies)) == Messages(d, bodies)
    decreases |bodies|
  {
    hide DecodesUtf8, Frame, TakeMessage, ReadAll;
    ReadAllStep(d, Frames(bodies));
    if bodies == [] {
      NothingToRead(d.utf8);
    } else {
      FrameRoundTrip(d.utf8, bodies[0], Frames(bodies[1..]));
      FramesRoundTrip(d, bodies[1..]);
    }
  }

  lemma NothingToRead(utf8: seq<byte> -> Option<string>)
    ensures TakeMessage(utf8, []) == (Ok(None), [])
  {
  }

  // ----- Reading a frame that was cut short

  /** What reading the first `cut` bytes of a frame gives. Most cuts are errors; a cut inside the digits of
      the length or right after the header line reads as the end of input. */
  function CutShort(length: nat, cut: nat): Result<Option<seq<byte>>, LspError> {
    var header := |HeaderText(length)|;
    if cut == 0 then Ok(None)
    else if cut <= 14 then Err(InvalidHeader("Content-Length"[..cut]))
    else if cut <= 16 then Err(InvalidContentLength(""))
    else if cut <= header then Ok(None)
    else if cut == header + 1 then Err(InvalidHeader(""))
    else Err(UnexpectedEof)
  }

  /** Every proper prefix of a frame reads as `CutShort` says, and never as a message. */
  lemma TruncationOutcome(utf8: seq<byte> -> Option<string>, body: seq<byte>, cut: nat)
    requires DecodesUtf8(utf8) && |body| <= USIZE_MAX && cut < |Frame(body)|
    ensures TakeMessage(utf8, Frame(body)[..cut]).0 == CutShort(|body|, cut)
  {
    hide Encode, HeaderText, DecodesUtf8, TakeMessage, HeaderLine, Frame;
    FrameLength(body);
    var header := |HeaderText(|body|)|;
    if cut == 0 {
      assert Frame(body)[..0] == [];
      NothingToRead(utf8);
    } else if cut < header {
      CutInHeader(utf8, body, cut);
    } else if cut <= header + 1 {
      CutAfterHeader(utf8, body, cut);
    } else {
      CutInBody(utf8, body, cut - (header + 2));
    }
  }

  lemma FrameLength(body: seq<byte>)
    ensures |Frame(body)| == |HeaderText(|body|)| + 2 + |body| && |HeaderText(|body|)| > 18
  {
    hide Encode, HeaderText;
    HeaderBytes(|body|);
  }

  lemma HeaderBytes(n: nat)
    ensures |Encode(HeaderText(n))| == |HeaderText(n)| > 18 && |Encode("\r\n")| == 2
    ensures forall k: nat | k <= |HeaderText(n)| :: Encode(HeaderText(n))[..k] == Encode(HeaderText(n)[..k])
  {
    DecimalPlain(n);
    hide Encode, Decimal;
    assert forall i :: 0 <= i < |HeaderText(n)| ==> HeaderText(n)[i] as int < 0x80;
    AsciiLength(HeaderText(n));
    AsciiLength("\r\n");
    forall k: nat | k <= |HeaderText(n)| ensures Encode(HeaderText(n))[..k] == Encode(HeaderText(n)[..k]) {
      var text := HeaderText(n);
      assert text == text[..k] + text[k..];
      EncodeConcat(text[..k], text[k..]);
      AsciiLength(text[..k]);
    }
  }

  lemma {:induction false} AsciiLength(s: string)
    requires forall i :: 0 <= i < |s| ==> s[i] as int < 0x80
    ensures |Encode(s)| == |s|
  {
    if s != "" {
      AsciiLength(s[1..]);
    }
  }

  /** The last line of the input, without a line feed. */
  lemma OpenLineTaken(text: string)
    requires '\n' !in text
    ensures LineLength(Encode(text)) == |Encode(text)|
  {
    AsciiOnlyFromItself(text, '\n');
    hide Encode;
    var i := FirstLf(Encode(text), 0);
  }

  /** Reading a single unfinished header line. */
  lemma OpenHeader(utf8: seq<byte> -> Option<string>, text: string)
    requires DecodesUtf8(utf8) && '\n' !in text && text != ""
    ensures TakeMessage(utf8, Encode(text)).0 ==
              if HeaderLine(text, None).Err? then Err(HeaderLine(text, None).error) else Ok(None)
  {
    OpenLineTaken(text);
    hide HeaderLine, LineLength, Encode;
    assert utf8(Encode(text)) == Some(text);
    assert Encode(text) != [] by { EncodeNonEmpty(text); }
    assert Encode(text)[..|Encode(text)|] == Encode(text);
    assert "\r\n"[1] == '\n';
    NothingLeft(utf8, HeaderLine(text, None));
  }

  lemma EncodeNonEmpty(text: string)
    requires text != ""
    ensures Encode(text) != []
  {
  }

  lemma NothingLeft(utf8: seq<byte> -> Option<string>, next: Result<Option<nat>, LspError>)
    ensures next.Ok? ==> ReadHeaders(utf8, [], next.value) == (Closed, [])
  {
  }

  lemma CutInHeader(utf8: seq<byte> -> Option<string>, body: seq<byte>, cut: nat)
    requires DecodesUtf8(utf8) && |body| <= USIZE_MAX && 0 < cut < |HeaderText(|body|)| && cut <= |Frame(body)|
    ensures TakeMessage(utf8, Frame(body)[..cut]).0 == CutShort(|body|, cut)
  {
    var n := |body|;
    HeaderBytes(n);
    HeaderTextFlat(n);
    hide Encode, TakeMessage, HeaderLine, DecodesUtf8;
    var text := HeaderText(n)[..cut];
    assert Frame(body)[..cut] == Encode(HeaderText(n))[..cut];
    assert '\n' !in text by {
      assert text <= HeaderText(n)[..|HeaderText(n)| - 1];
    }
    OpenHeader(utf8, text);
    OpenHeaderLine(n, cut);
  }

  /** What an unfinished Content-Length line does. */
  lemma OpenHeaderLine(n: nat, cut: nat)
    requires n <= USIZE_MAX && 0 < cut < |HeaderText(n)|
    ensures HeaderLine(HeaderText(n)[..cut], None).Err? ==>
              CutShort(n, cut) == Err(HeaderLine(HeaderText(n)[..cut], None).error)
    ensures HeaderLine(HeaderText(n)[..cut], None).Ok? ==> CutShort(n, cut) == Ok(None)
  {
    DecimalDigits(n);
    var h, name := HeaderText(n), "Content-Length";
    hide Decimal;
    var text := h[..cut];
    var digits := Decimal(n);
    assert |h| == 16 + |digits| + 2;
    if cut <= 14 {
      assert text == name[..cut];
      NoColon(text);
    } else if cut <= 16 {
      assert text == name + ":" + " "[..cut - 15];
      EmptyLength(" "[..cut - 15]);
    } else if cut <= |h| - 2 {
      assert text == name + ":" + (" " + digits[..cut - 16]);
      PartialLength(digits, cut - 16, "");
      assert text + "" == text;
    } else {
      assert text == name + ":" + (" " + digits[..|digits|]) + "\r";
      PartialLength(digits, |digits|, "\r");
    }
  }

  lemma NoColon(text: string)
    requires text != "" && text <= "Content-Length"
    ensures HeaderLine(text, None) == Err(InvalidHeader(text))
  {
    var name := "Content-Length";
    assert forall i :: 0 <= i < |text| ==> text[i] == name[i] && name[i] !in ":\r\n";
    assert TrimLineEnd(text) == text;
  }

  lemma EmptyLength(blank: string)
    requires blank == "" || blank == " "
    ensures HeaderLine("Content-Length" + ":" + blank, None) == Err(InvalidContentLength(""))
  {
    var text := "Content-Length" + ":" + blank;
    assert text[|text| - 1] == if blank == "" then ':' else ' ';
    assert TrimLineEnd(text) == text;
    ColonFound("Content-Length", blank);
    assert text[..14] == "Content-Length" && text[15..] == blank;
    assert " "[1..] == "" && TrimStart("") == "";
    assert TrimStart(" ") == TrimStart(" "[1..]);
  }

  lemma PartialLength(digits: string, m: nat, end: string)
    requires 0 < m <= |digits| && (forall i :: 0 <= i < |digits| ==> IsDigit(digits[i]))
    requires DigitsValue(digits) <= USIZE_MAX && (end == "" || end == "\r")
    ensures HeaderLine("Content-Length" + ":" + (" " + digits[..m]) + end, None).Ok?
  {
    var value := " " + digits[..m];
    assert value[|value| - 1] == digits[m - 1];
    PartialDigits(digits, m);
    LengthLine(value, end);
  }

  lemma PartialDigits(digits: string, m: nat)
    requires 0 < m <= |digits| && (forall i :: 0 <= i < |digits| ==> IsDigit(digits[i]))
    requires DigitsValue(digits) <= USIZE_MAX
    ensures ParseUsize(Trim(" " + digits[..m])).Some?
  {
    var d := digits[..m];
    TrimDigits(d);
    PrefixValue(digits, m);
    hide Trim;
    assert forall c <- d :: IsDigit(c);
    assert d[0] != '+';
  }

  /** An open Content-Length line with or without its carriage return. */
  lemma LengthLine(value: string, end: string)
    requires value != "" && value[|value| - 1] != '\r' && value[|value| - 1] != '\n' && (end == "" || end == "\r")
    requires ParseUsize(Trim(value)).Some?
    ensures HeaderLine("Content-Length" + ":" + value + end, None).Ok?
  {
    hide ParseUsize, Trim;
    var name := "Content-Length";
    var text := name + ":" + value;
    assert text[|text| - 1] == value[|value| - 1];
    assert TrimLineEnd(text) == text;
    TrimOne(text, '\r');
    hide TrimLineEnd;
    assert text + "" == text;
    ColonFound(name, value);
    assert text[..14] == name && text[15..] == value;
  }

  lemma {:induction false} PrefixValue(digits: string, m: nat)
    requires m <= |digits|
    ensures DigitsValue(digits[..m]) <= DigitsValue(digits)
    decreases |digits|
  {
    if m == |digits| {
      assert digits[..m] == digits;
    } else {
      var front := digits[..|digits| - 1];
      assert front[..m] == digits[..m];
      PrefixValue(front, m);
    }
  }

  /** A frame cut after its header line, or after the carriage return that follows. */
  lemma CutAfterHeader(utf8: seq<byte> -> Option<string>, body: seq<byte>, cut: nat)
    requires DecodesUtf8(utf8) && |body| <= USIZE_MAX
    requires |HeaderText(|body|)| <= cut <= |HeaderText(|body|)| + 1
    ensures cut < |Frame(body)| && TakeMessage(utf8, Frame(body)[..cut]).0 == CutShort(|body|, cut)
  {
    var n := |body|;
    var rest := if cut == |HeaderText(n)| then "" else "\r";
    CutBytes(body, cut, rest);
    LengthHeader(n, None);
    HeaderTextFlat(n);
    hide Encode, HeaderLine, ReadHeaders, DecodesUtf8, Frame;
    var text := HeaderText(n)[..|HeaderText(n)| - 1];
    assert text + "\n" == HeaderText(n);
    hide HeaderText;
    HeadersStep(utf8, text, Encode(rest), None);
    CutRest(utf8, rest, n);
  }

  /** The bytes of such a cut. */
  lemma CutBytes(body: seq<byte>, cut: nat, rest: string)
    requires |HeaderText(|body|)| <= cut <= |HeaderText(|body|)| + 1
    requires rest == if cut == |HeaderText(|body|)| then "" else "\r"
    ensures cut < |Frame(body)| && Frame(body)[..cut] == Encode(HeaderText(|body|)) + Encode(rest)
  {
    HeaderBytes(|body|);
    CarriageReturn();
    hide Encode, HeaderText;
  }

  lemma CarriageReturn()
    ensures Encode("\r\n")[..1] == Encode("\r") && |Encode("\r")| == 1 && Encode("") == []
  {
    EncodeConcat("\r", "\n");
    EncodeOne('\r');
    EncodeOne('\n');
    assert "\r" + "\n" == "\r\n";
  }

  lemma CutRest(utf8: seq<byte> -> Option<string>, rest: string, n: nat)
    requires DecodesUtf8(utf8) && (rest == "" || rest == "\r")
    ensures ReadHeaders(utf8, Encode(rest), Some(n)).0 == if rest == "" then Closed else Failed(InvalidHeader(""))
  {
    CarriageReturn();
    if rest == "\r" {
      OpenLineTaken(rest);
      TrimOne("", '\r');
      assert "" + "\r" == "\r";
      assert HeaderLine("\r", Some(n)) == Err(InvalidHeader(""));
      hide HeaderLine, LineLength, Encode;
      assert utf8(Encode(rest)) == Some(rest);
      assert Encode(rest)[..1] == Encode(rest);
    }
  }

  lemma CutInBody(utf8: seq<byte> -> Option<string>, body: seq<byte>, cut: nat)
    requires DecodesUtf8(utf8) && |body| <= USIZE_MAX && cut < |body|
    ensures var frame := Frame(body);
            && |frame| == |HeaderText(|body|)| + 2 + |body|
            && TakeMessage(utf8, frame[..|HeaderText(|body|)| + 2 + cut]) == (Err(UnexpectedEof), [])
  {
    hide Encode, HeaderText, DecodesUtf8, TakeMessage, Frame;
    HeaderBytes(|body|);
    SentHeaders(utf8, |body|, body[..cut]);
    FrameCut(body, cut);
  }

  lemma FrameCut(body: seq<byte>, cut: nat)
    requires cut < |body|
    ensures var head := |Encode(HeaderText(|body|))| + |Encode("\r\n")|;
            && |Frame(body)| == head + |body|
            && Frame(body)[..head + cut] == Encode(HeaderText(|body|)) + (Encode("\r\n") + body[..cut])
  {
    hide Encode, HeaderText;
  }
}
