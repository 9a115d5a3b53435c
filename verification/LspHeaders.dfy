/** What the header part of a message decides, on the list of its headers, and which texts are lengths. */
module LspHeaders {
  import opened Numbers
  import opened Options
  import opened Strings
  import opened Bytes
  import opened LspFraming

  // ----- Numbers

  function Zeros(k: nat): (s: string)
    ensures |s| == k
  {
    seq(k, _ => '0')
  }

  /** A number in decimal, after any zeros and perhaps a plus sign. */
  predicate Writes(s: string, sign: string, zeros: nat, n: nat) {
    (sign == "" || sign == "+") && s == sign + (Zeros(zeros) + Decimal(n))
  }

  lemma {:induction false} ZerosCountNothing(k: nat, digits: string)
    ensures DigitsValue(Zeros(k) + digits) == DigitsValue(digits)
  {
    var s := Zeros(k) + digits;
    if digits != "" {
      assert s[..|s| - 1] == Zeros(k) + digits[..|digits| - 1];
      ZerosCountNothing(k, digits[..|digits| - 1]);
    } else if k > 0 {
      assert s[..|s| - 1] == Zeros(k - 1) + digits;
      ZerosCountNothing(k - 1, digits);
    }
  }

  predicate AllDigits(s: string) {
    forall i | 0 <= i < |s| :: IsDigit(s[i])
  }

  /** A run of digits is its value in decimal after zeros. */
  lemma {:induction false} DigitsAreDecimal(s: string) returns (zeros: nat)
    requires s != "" && AllDigits(s)
    ensures s == Zeros(zeros) + Decimal(DigitsValue(s))
  {
    hide *;
    var front, last := s[..|s| - 1], s[|s| - 1];
    FrontAndLast(s);
    LastDigit(s);
    var v := DigitsValue(front);
    DecimalNext(v, last);
    if front == "" {
      zeros := 0;
      NoZeros(s);
    } else {
      var k := DigitsAreDecimal(front);
      if v == 0 {
        zeros := k + 1;
        OneMoreZero(k);
      } else {
        zeros := k;
        Associate(Zeros(k), Decimal(v), [last]);
      }
    }
  }

  lemma FrontAndLast(s: string)
    requires s != "" && AllDigits(s)
    ensures AllDigits(s[..|s| - 1]) && IsDigit(s[|s| - 1]) && s == s[..|s| - 1] + [s[|s| - 1]]
    ensures |s| == 1 ==> s == [s[|s| - 1]]
  {
  }

  lemma Associate<T>(a: seq<T>, b: seq<T>, c: seq<T>)
    ensures a + b + c == a + (b + c)
  {
  }

  lemma LastDigit(s: string)
    requires s != "" && IsDigit(s[|s| - 1])
    ensures DigitsValue(s) == 10 * DigitsValue(s[..|s| - 1]) + (s[|s| - 1] as int - '0' as int)
    ensures DigitsValue("") == 0
  {
  }

  lemma DecimalNext(v: nat, c: char)
    requires IsDigit(c)
    ensures c as int >= '0' as int
    ensures Decimal(10 * v + (c as int - '0' as int)) == if v == 0 then [c] else Decimal(v) + [c]
    ensures Decimal(0) == "0"
  {
    DigitOf(c);
  }

  lemma NoZeros(s: string)
    ensures Zeros(0) + s == s
  {
  }

  lemma OneMoreZero(k: nat)
    ensures Zeros(k) + "0" == Zeros(k + 1)
  {
  }

  lemma DigitOf(c: char)
    requires IsDigit(c)
    ensures Digit(c as int - '0' as int) == c
  {
  }

  lemma {:induction false} ValueOf(s: string, sign: string, zeros: nat, n: nat)
    requires Writes(s, sign, zeros, n)
    ensures ParseUsize(s) == if n <= USIZE_MAX then Some(n) else None
  {
    var digits := Zeros(zeros) + Decimal(n);
    DecimalDigits(n);
    ZerosCountNothing(zeros, Decimal(n));
    hide Decimal, DigitsValue;
    assert forall i | 0 <= i < |digits| :: IsDigit(digits[i]);
    assert forall c <- digits :: IsDigit(c);
    assert digits[0] != '+';
    if sign == "" {
      assert s == digits;
    } else {
      assert s[0] == '+' && s[1..] == digits;
    }
  }

  /** A text is read as a length exactly when it is that number in decimal, after any zeros and perhaps a plus
      sign, and the number fits in 64 bits. */
  lemma ParseExactly(s: string, n: nat)
    ensures ParseUsize(s) == Some(n) <==> n <= USIZE_MAX && exists sign, zeros: nat :: Writes(s, sign, zeros, n)
  {
    if n <= USIZE_MAX && exists sign, zeros: nat :: Writes(s, sign, zeros, n) {
      var sign, zeros: nat :| Writes(s, sign, zeros, n);
      ValueOf(s, sign, zeros, n);
    }
    if ParseUsize(s) == Some(n) {
      var sign := if s[0] == '+' then "+" else "";
      var digits := s[|sign|..];
      assert s == sign + digits;
      assert AllDigits(digits);
      var zeros := DigitsAreDecimal(digits);
      assert Writes(s, sign, zeros, n);
    }
  }

  // ----- Names

  /** The same letter in either case, or the same character. */
  predicate SameLetter(a: char, b: char) {
    || a == b
    || ('a' <= a <= 'z' && b as int == a as int - 32)
    || ('a' <= b <= 'z' && a as int == b as int - 32)
  }

  lemma SameNameExactly(a: string, b: string)
    ensures EqIgnoreAsciiCase(a, b) <==> |a| == |b| && forall i | 0 <= i < |a| :: SameLetter(a[i], b[i])
  {
    if |a| == |b| {
      forall i | 0 <= i < |a| ensures LowerAscii(a[i]) == LowerAscii(b[i]) <==> SameLetter(a[i], b[i]) {
        SameLetterExactly(a[i], b[i]);
      }
    }
  }

  lemma SameLetterExactly(a: char, b: char)
    ensures LowerAscii(a) == LowerAscii(b) <==> SameLetter(a, b)
  {
  }

  // ----- The header part

  datatype Header = Header(name: string, value: string)

  /** A header as one line: no colon in its name, no line feed, and a value that does not end in a carriage
      return. */
  predicate Plain(h: Header) {
    ':' !in h.name && '\n' !in h.name && '\n' !in h.value && (h.value == "" || h.value[|h.value| - 1] != '\r')
  }

  predicate AllPlain(headers: seq<Header>) {
    forall i | 0 <= i < |headers| :: Plain(headers[i])
  }

  function LineOf(h: Header): string {
    h.name + ":" + h.value + "\r\n"
  }

  /** The bytes of the headers, one line each. */
  function Wire(headers: seq<Header>): seq<byte> {
    if headers == [] then [] else Encode(LineOf(headers[0])) + Wire(headers[1..])
  }

  /** Whether a header gives the length, whatever the case of its letters. */
  predicate GivesLength(h: Header) {
    |h.name| == |"Content-Length"| && forall i | 0 <= i < |h.name| :: SameLetter(h.name[i], "Content-Length"[i])
  }

  /** What the length headers say, in order, without the white space around. */
  function Lengths(headers: seq<Header>): seq<string> {
    if headers == [] then []
    else (if GivesLength(headers[0]) then [Trim(headers[0].value)] else []) + Lengths(headers[1..])
  }

  predicate AllNumbers(values: seq<string>) {
    forall i | 0 <= i < |values| :: ParseUsize(values[i]).Some?
  }

  function LastNumber(values: seq<string>, before: Option<nat>): Option<nat>
    requires AllNumbers(values)
  {
    if values == [] then before else ParseUsize(values[|values| - 1])
  }

  /** The first length that is no number. */
  predicate FirstBad(values: seq<string>, k: nat) {
    k < |values| && ParseUsize(values[k]).None? && forall i | 0 <= i < k :: ParseUsize(values[i]).Some?
  }

  lemma PlainHeader(utf8: seq<byte> -> Option<string>, h: Header, rest: seq<byte>, length: Option<nat>)
    requires DecodesUtf8(utf8) && Plain(h)
    ensures var r := ReadHeaders(utf8, Encode(LineOf(h)) + rest, length);
            if !GivesLength(h) then r == ReadHeaders(utf8, rest, length)
            else if ParseUsize(Trim(h.value)).None? then r == (Failed(InvalidContentLength(Trim(h.value))), rest)
            else r == ReadHeaders(utf8, rest, ParseUsize(Trim(h.value)))
  {
    hide DecodesUtf8, ReadHeaders, Encode, HeaderLine, ParseUsize, Trim, GivesLength, EqIgnoreAsciiCase;
    HeaderLineMeaning(h.name, h.value, length);
    LengthName(h);
    var text := h.name + ":" + h.value + "\r";
    assert text + "\n" == LineOf(h);
    assert '\n' !in text;
    LineRead(utf8, text, rest, length);
  }

  lemma LengthName(h: Header)
    ensures GivesLength(h) <==> EqIgnoreAsciiCase(h.name, "Content-Length")
  {
    SameNameExactly(h.name, "Content-Length");
  }

  /** Any line of text that does not end the headers. */
  lemma LineRead(utf8: seq<byte> -> Option<string>, text: string, rest: seq<byte>, length: Option<nat>)
    requires DecodesUtf8(utf8) && '\n' !in text && text != "\r"
    ensures var r, next := ReadHeaders(utf8, Encode(text + "\n") + rest, length), HeaderLine(text + "\n", length);
            r == if next.Err? then (Failed(next.error), rest) else ReadHeaders(utf8, rest, next.value)
  {
    hide Encode, HeaderLine, LineLength;
    LineTaken(text, rest);
    LineNotEmpty(text);
    assert utf8(Encode(text + "\n")) == Some(text + "\n");
    assert (text + "\n")[..|text|] == text && "\r\n"[..1] == "\r";
    assert text + "\n" != "\r\n";
  }

  /** Headers that are all in order set the length to what the last length header says. */
  lemma {:induction false} NumbersRead(utf8: seq<byte> -> Option<string>, headers: seq<Header>, rest: seq<byte>,
                                       length: Option<nat>)
    requires DecodesUtf8(utf8) && AllPlain(headers) && AllNumbers(Lengths(headers))
    ensures ReadHeaders(utf8, Wire(headers) + rest, length)
         == ReadHeaders(utf8, rest, LastNumber(Lengths(headers), length))
  {
    hide *;
    WireSteps(headers, rest);
    PlainSteps(headers);
    LengthsStep(headers);
    if headers == [] {
      NoNumbers(length);
    } else {
      var h := headers[0];
      PlainHeader(utf8, h, Wire(headers[1..]) + rest, length);
      if GivesLength(h) {
        NumbersStep(Trim(h.value), Lengths(headers[1..]), length);
        NumbersRead(utf8, headers[1..], rest, ParseUsize(Trim(h.value)));
      } else {
        NumbersRead(utf8, headers[1..], rest, length);
      }
    }
  }

  lemma WireSteps(headers: seq<Header>, rest: seq<byte>)
    ensures Wire(headers) + rest ==
              if headers == [] then rest else Encode(LineOf(headers[0])) + (Wire(headers[1..]) + rest)
  {
    hide Encode, LineOf;
    if headers == [] {
      assert [] + rest == rest;
    }
  }

  lemma PlainSteps(headers: seq<Header>)
    requires AllPlain(headers)
    ensures headers != [] ==> Plain(headers[0]) && AllPlain(headers[1..])
  {
    hide Plain;
  }

  lemma LengthsStep(headers: seq<Header>)
    ensures Lengths(headers) ==
              if headers == [] then []
              else if GivesLength(headers[0]) then [Trim(headers[0].value)] + Lengths(headers[1..])
              else Lengths(headers[1..])
  {
    hide GivesLength, Trim;
  }

  lemma NoNumbers(length: Option<nat>)
    ensures AllNumbers([]) && LastNumber([], length) == length
  {
  }

  lemma NumbersStep(value: string, tail: seq<string>, length: Option<nat>)
    requires AllNumbers([value] + tail)
    ensures ParseUsize(value).Some? && AllNumbers(tail)
    ensures LastNumber([value] + tail, length) == LastNumber(tail, ParseUsize(value))
  {
    hide ParseUsize;
    var all := [value] + tail;
    assert all[0] == value && forall i | 0 <= i < |tail| :: tail[i] == all[i + 1];
  }

  /** The first length that is no number ends the reading, whatever follows. */
  lemma {:induction false} BadNumberFails(utf8: seq<byte> -> Option<string>, headers: seq<Header>, k: nat,
                                          rest: seq<byte>, length: Option<nat>)
    requires DecodesUtf8(utf8) && AllPlain(headers) && FirstBad(Lengths(headers), k)
    ensures ReadHeaders(utf8, Wire(headers) + rest, length).0 == Failed(InvalidContentLength(Lengths(headers)[k]))
  {
    hide *;
    BadIsInside(Lengths(headers), k);
    WireSteps(headers, rest);
    PlainSteps(headers);
    LengthsStep(headers);
    assert headers != [];
    var h := headers[0];
    PlainHeader(utf8, h, Wire(headers[1..]) + rest, length);
    if !GivesLength(h) {
      BadNumberFails(utf8, headers[1..], k, rest, length);
    } else {
      BadStep(Trim(h.value), Lengths(headers[1..]), k);
      if k > 0 {
        BadNumberFails(utf8, headers[1..], k - 1, rest, ParseUsize(Trim(h.value)));
      }
    }
  }

  lemma BadIsInside(values: seq<string>, k: nat)
    requires FirstBad(values, k)
    ensures k < |values| && ParseUsize(values[k]).None?
  {
  }

  lemma BadStep(value: string, tail: seq<string>, k: nat)
    requires FirstBad([value] + tail, k)
    ensures k == 0 ==> ([value] + tail)[k] == value && ParseUsize(value).None?
    ensures k > 0 ==> ParseUsize(value).Some? && FirstBad(tail, k - 1) && k - 1 < |tail|
                      && ([value] + tail)[k] == tail[k - 1]
  {
    hide ParseUsize;
    var all := [value] + tail;
    assert all[0] == value && forall i | 0 <= i < |tail| :: tail[i] == all[i + 1];
  }

  /** A message after any headers: the last length counts, in any case of letters; without one the message is
      refused, and with more than is left the input ends; a length that is no number is the error. */
  lemma HeadersDecide(utf8: seq<byte> -> Option<string>, headers: seq<Header>, content: seq<byte>)
    requires DecodesUtf8(utf8) && AllPlain(headers)
    ensures var r, values := TakeMessage(utf8, Wire(headers) + (Encode("\r\n") + content)), Lengths(headers);
            && (forall k: nat | FirstBad(values, k) :: r.0 == Err(InvalidContentLength(values[k])))
            && (AllNumbers(values) ==>
                  if values == [] then r == (Err(MissingContentLength), content)
                  else
                    var n := ParseUsize(values[|values| - 1]).value;
                    if n > |content| then r == (Err(UnexpectedEof), [])
                    else r == (Ok(Some(content[..n])), content[n..]))
  {
    hide DecodesUtf8, ReadHeaders, Encode, ParseUsize, Lengths, Wire, AllPlain;
    var end := Encode("\r\n") + content;
    var values := Lengths(headers);
    forall k: nat | FirstBad(values, k)
      ensures TakeMessage(utf8, Wire(headers) + end).0 == Err(InvalidContentLength(values[k]))
    {
      BadNumberFails(utf8, headers, k, end, None);
    }
    if AllNumbers(values) {
      NumbersRead(utf8, headers, end, None);
      HeadersEnd(utf8, content, LastNumber(values, None));
    }
  }

  /** A line without a colon among the headers is the error, and what follows it is left. */
  lemma LineWithoutColon(utf8: seq<byte> -> Option<string>, headers: seq<Header>, line: string, rest: seq<byte>)
    requires DecodesUtf8(utf8) && AllPlain(headers) && AllNumbers(Lengths(headers))
    requires line != "" && ':' !in line && '\n' !in line && line[|line| - 1] != '\r'
    ensures TakeMessage(utf8, Wire(headers) + (Encode(line + "\r\n") + rest)) == (Err(InvalidHeader(line)), rest)
  {
    hide DecodesUtf8, ReadHeaders, Encode, Lengths, Wire, AllPlain, TrimLineEnd, ParseUsize, Trim, AllNumbers;
    var length := LastNumber(Lengths(headers), None);
    NumbersRead(utf8, headers, Encode(line + "\r\n") + rest, None);
    TrimCrLf(line);
    assert line + "\r" + "\n" == line + "\r\n";
    LineRead(utf8, line + "\r", rest, length);
  }

  /** A header line that is no UTF-8 is the error, and what follows it is left. */
  lemma LineThatIsNoText(utf8: seq<byte> -> Option<string>, headers: seq<Header>, line: seq<byte>, rest: seq<byte>)
    requires DecodesUtf8(utf8) && AllPlain(headers) && AllNumbers(Lengths(headers))
    requires LF !in line && utf8(line + [LF]).None?
    ensures TakeMessage(utf8, Wire(headers) + (line + [LF] + rest)) == (Err(InvalidText), rest)
  {
    hide DecodesUtf8, Encode, Lengths, Wire, AllPlain, ParseUsize, AllNumbers, HeaderLine;
    var input := line + [LF] + rest;
    NumbersRead(utf8, headers, input, None);
    assert input[|line|] == LF;
    assert FirstLf(input, 0) == |line|;
    assert input[..|line| + 1] == line + [LF] && input[|line| + 1..] == rest;
  }

  /** Headers that stop before the empty line are the end of the input. */
  lemma HeadersWithoutEnd(utf8: seq<byte> -> Option<string>, headers: seq<Header>)
    requires DecodesUtf8(utf8) && AllPlain(headers) && AllNumbers(Lengths(headers))
    ensures TakeMessage(utf8, Wire(headers)) == (Ok(None), [])
  {
    hide DecodesUtf8, Encode, Lengths, Wire, AllPlain, ParseUsize, AllNumbers, HeaderLine;
    assert Wire(headers) + [] == Wire(headers);
    NumbersRead(utf8, headers, [], None);
  }
}
