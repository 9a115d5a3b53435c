/** The TypeScript client's event stream: text arrives in chunks, line ends are normalised chunk by chunk,
    frames are cut at blank lines and parsed one by one. JSON decoding is a parameter. */
module ThreadStream {
  import opened Bytes
  import opened Options
  import opened Rows
  import opened Search
  import opened Strings

  // ----- Normalising line ends

  function ReplaceCRLF(s: string): string {
    if |s| < 2 then s
    else if s[0] == '\r' && s[1] == '\n' then "\n" + ReplaceCRLF(s[2..])
    else [s[0]] + ReplaceCRLF(s[1..])
  }

  function ReplaceCR(s: string): string {
    if s == "" then "" else [if s[0] == '\r' then '\n' else s[0]] + ReplaceCR(s[1..])
  }

  /** `replace(/\r\n/g, "\n").replace(/\r/g, "\n")`. */
  function Normalize(s: string): string {
    ReplaceCR(ReplaceCRLF(s))
  }

  /** The chunks as they are appended to the buffer. */
  function NormalizeEach(chunks: seq<string>): string {
    if chunks == [] then "" else NormalizeEach(chunks[..|chunks| - 1]) + Normalize(chunks[|chunks| - 1])
  }

  predicate Splits(a: string, b: string) {
    a != "" && b != "" && a[|a| - 1] == '\r' && b[0] == '\n'
  }

  /** The chunk at `k` starts between a carriage return and its line feed. */
  predicate SplitsAt(chunks: seq<string>, k: nat) {
    k < |chunks| && Splits(Joined(chunks[..k]), chunks[k])
  }

  function Joined(chunks: seq<string>): string {
    if chunks == [] then "" else Joined(chunks[..|chunks| - 1]) + chunks[|chunks| - 1]
  }

  lemma {:induction false} ReplaceCRLength(s: string)
    ensures |ReplaceCR(s)| == |s|
  {
    if s != "" {
      ReplaceCRLength(s[1..]);
    }
  }

  lemma {:induction false} ReplaceCRConcat(a: string, b: string)
    ensures ReplaceCR(a + b) == ReplaceCR(a) + ReplaceCR(b)
  {
    if a == "" {
      assert a + b == b;
    } else {
      assert (a + b)[1..] == a[1..] + b;
      ReplaceCRConcat(a[1..], b);
    }
  }

  lemma CRLFStep(s: string)
    requires s != ""
    ensures |s| >= 2 && s[0] == '\r' && s[1] == '\n' ==> ReplaceCRLF(s) == "\n" + ReplaceCRLF(s[2..])
    ensures !(|s| >= 2 && s[0] == '\r' && s[1] == '\n') ==> ReplaceCRLF(s) == [s[0]] + ReplaceCRLF(s[1..])
  {
    if |s| == 1 {
      assert s[1..] == "";
    }
  }

  lemma NothingReplaced()
    ensures ReplaceCRLF("") == ""
  {
  }

  lemma {:induction false} ReplaceCRLFConcat(a: string, b: string)
    ensures !Splits(a, b) ==> ReplaceCRLF(a + b) == ReplaceCRLF(a) + ReplaceCRLF(b)
    ensures Splits(a, b) ==> |ReplaceCRLF(a + b)| == |ReplaceCRLF(a)| + |ReplaceCRLF(b)| - 1
    decreases |a|
  {
    hide ReplaceCRLF;
    NothingReplaced();
    if a == "" {
      assert a + b == b;
    } else if b == "" {
      assert a + b == a;
    } else if |a| >= 2 && a[0] == '\r' && a[1] == '\n' {
      CRLFStep(a);
      CRLFStep(a + b);
      assert (a + b)[2..] == a[2..] + b;
      ReplaceCRLFConcat(a[2..], b);
    } else if |a| == 1 && Splits(a, b) {
      CRLFStep(a);
      CRLFStep(a + b);
      CRLFStep(b);
      assert (a + b)[2..] == b[1..];
    } else {
      CRLFStep(a);
      CRLFStep(a + b);
      assert (a + b)[1..] == a[1..] + b;
      ReplaceCRLFConcat(a[1..], b);
    }
  }

  lemma NormalizeConcat(a: string, b: string)
    ensures !Splits(a, b) ==> Normalize(a + b) == Normalize(a) + Normalize(b)
    ensures |Normalize(a + b)| == |Normalize(a)| + |Normalize(b)| - if Splits(a, b) then 1 else 0
  {
    hide ReplaceCR, ReplaceCRLF;
    ReplaceCRLFConcat(a, b);
    ReplaceCRConcat(ReplaceCRLF(a), ReplaceCRLF(b));
    ReplaceCRLength(ReplaceCRLF(a + b));
    ReplaceCRLength(ReplaceCRLF(a));
    ReplaceCRLength(ReplaceCRLF(b));
  }

  /** Normalising chunk by chunk is normalising the whole stream exactly when no chunk starts between a
      carriage return and its line feed. */
  lemma {:induction false} NormalizePerChunkExactly(chunks: seq<string>)
    ensures |NormalizeEach(chunks)| >= |Normalize(Joined(chunks))|
    ensures NormalizeEach(chunks) == Normalize(Joined(chunks)) <==> forall k: nat :: !SplitsAt(chunks, k)
    decreases |chunks|
  {
    hide Normalize, Splits;
    if chunks == [] {
      EmptyNormal();
    } else {
      var n := |chunks| - 1;
      var front, last := chunks[..n], chunks[n];
      NormalizePerChunkExactly(front);
      NormalizeConcat(Joined(front), last);
      forall k: nat ensures SplitsAt(chunks, k) <==> SplitsAt(front, k) || (k == n && Splits(Joined(front), last)) {
        if k < n {
          assert chunks[..k] == front[..k];
        }
      }
      SameEnd(NormalizeEach(front), Normalize(Joined(front)), Normalize(last));
      if Splits(Joined(front), last) {
        assert SplitsAt(chunks, n);
      }
    }
  }

  lemma SameEnd(x: string, y: string, z: string)
    ensures x + z == y + z <==> x == y
  {
    if x + z == y + z {
      assert (x + z)[..|x|] == (y + z)[..|y|];
    }
  }

  lemma EmptyNormal()
    ensures Normalize("") == ""
  {
  }

  /** A stream without carriage returns is left as it is, however it is cut. */
  lemma {:induction false} PlainStaysPlain(s: string)
    requires '\r' !in s
    ensures Normalize(s) == s
  {
    hide Normalize;
    PlainCRLF(s);
    PlainCR(s);
    NormalIs(s);
  }

  lemma NormalIs(s: string)
    ensures Normalize(s) == ReplaceCR(ReplaceCRLF(s))
  {
  }

  lemma {:induction false} PlainCRLF(s: string)
    requires '\r' !in s
    ensures ReplaceCRLF(s) == s
  {
    if |s| >= 2 {
      assert s[0] in s;
      PlainCRLF(s[1..]);
    }
  }

  lemma {:induction false} PlainCR(s: string)
    requires '\r' !in s
    ensures ReplaceCR(s) == s
  {
    if s != "" {
      assert s[0] in s;
      PlainCR(s[1..]);
    }
  }

  /** Lines that have no line end inside, each with the line end it is sent with. */
  datatype SentLine = SentLine(text: string, end: string)

  predicate AllLines(lines: seq<SentLine>) {
    forall i | 0 <= i < |lines| ::
      '\r' !in lines[i].text && '\n' !in lines[i].text && lines[i].end in ["\n", "\r\n", "\r"]
  }

  /** No empty line is ended by a line feed right after a line ended by a carriage return. */
  predicate NoneMerge(lines: seq<SentLine>) {
    forall i | 0 <= i < |lines| - 1 :: !(lines[i].end == "\r" && lines[i + 1] == SentLine("", "\n"))
  }

  function Sent(lines: seq<SentLine>): string {
    if lines == [] then "" else (lines[0].text + lines[0].end) + Sent(lines[1..])
  }

  function NewlineEnded(lines: seq<SentLine>): string {
    if lines == [] then "" else (lines[0].text + "\n") + NewlineEnded(lines[1..])
  }

  /** Whichever of the three line ends a line has, it is read as a newline; only a carriage return and the line
      feed of an empty line after it cannot be told from one line end. */
  lemma {:induction false} LineEndsAreNewlines(lines: seq<SentLine>)
    requires AllLines(lines) && NoneMerge(lines)
    ensures Normalize(Sent(lines)) == NewlineEnded(lines)
  {
    hide Normalize;
    if lines == [] {
      EmptyNormal();
    } else {
      LineEndsAreNewlines(lines[1..]);
      LineNormal(lines[0]);
      SeamKept(lines);
      NormalizeConcat(lines[0].text + lines[0].end, Sent(lines[1..]));
    }
  }

  lemma SeamKept(lines: seq<SentLine>)
    requires lines != [] && AllLines(lines) && NoneMerge(lines)
    ensures !Splits(lines[0].text + lines[0].end, Sent(lines[1..]))
  {
    var a, b := lines[0].text + lines[0].end, Sent(lines[1..]);
    assert a[|a| - 1] == lines[0].end[|lines[0].end| - 1];
    if |lines| > 1 {
      var next := lines[1];
      assert b[0] == if next.text == "" then next.end[0] else next.text[0];
      assert next.text != "" ==> next.text[0] in next.text;
    }
  }

  lemma LineNormal(line: SentLine)
    requires AllLines([line])
    ensures Normalize(line.text + line.end) == line.text + "\n"
  {
    assert [line][0] == line;
    NormalizeConcat(line.text, line.end);
    PlainStaysPlain(line.text);
    PlainStaysPlain("\n");
    EndingsNormal();
    hide Normalize;
  }

  // ----- Frames

  datatype Drained = Drained(frames: seq<string>, rest: string)

  function DrainText(buffer: string): Drained
    decreases |buffer|
  {
    match Find(buffer, "\n\n")
    case None => Drained([], buffer)
    case Some(boundary) =>
      var later := DrainText(buffer[boundary + 2..]);
      Drained([buffer[..boundary]] + later.frames, later.rest)
  }

  lemma {:induction false} DrainLeavesNoBlankLine(s: string)
    ensures Find(DrainText(s).rest, "\n\n") == None
    decreases |s|
  {
    var boundary := Find(s, "\n\n");
    if boundary.Some? {
      DrainLeavesNoBlankLine(s[boundary.value + 2..]);
    }
  }

  lemma DrainStep(s: string, k: nat)
    requires Find(s, "\n\n") == Some(k)
    ensures k + 2 <= |s|
    ensures DrainText(s) == Drained([s[..k]] + DrainText(s[k + 2..]).frames, DrainText(s[k + 2..]).rest)
  {
  }

  lemma DrainNone(s: string)
    requires Find(s, "\n\n") == None
    ensures DrainText(s) == Drained([], s)
  {
  }

  method DrainFrames(text: string) returns (frames: seq<string>, buffer: string)
    ensures Drained(frames, buffer) == DrainText(text)
  {
    hide DrainText;
    frames, buffer := [], text;
    while true
      invariant DrainText(text) == Drained(frames + DrainText(buffer).frames, DrainText(buffer).rest)
      decreases |buffer|
    {
      var boundary := Find(buffer, "\n\n");
      if boundary.None? {
        DrainNone(buffer);
        return;
      }
      DrainStep(buffer, boundary.value);
      frames := frames + [buffer[..boundary.value]];
      buffer := buffer[boundary.value + 2..];
    }
  }

  /** Draining before more text arrives changes neither the frames nor the rest. */
  lemma {:induction false} DrainEarly(a: string, b: string)
    ensures var first := DrainText(a);
            var second := DrainText(first.rest + b);
            DrainText(a + b) == Drained(first.frames + second.frames, second.rest)
    decreases |a|
  {
    hide DrainText, Find;
    var boundary := Find(a, "\n\n");
    if boundary.None? {
      DrainNone(a);
    } else {
      var k := boundary.value;
      FindStable(a, b, "\n\n");
      DrainStep(a, k);
      DrainStep(a + b, k);
      assert (a + b)[k + 2..] == a[k + 2..] + b && (a + b)[..k] == a[..k];
      DrainEarly(a[k + 2..], b);
    }
  }

  // ----- Parsing a frame

  datatype Frame = Frame(event: Option<string>, data: string)

  /** What JavaScript's `trim` strips: Rust's white space, save that the byte order mark is stripped and
      the next-line character is not. */
  predicate IsJsSpace(c: char) {
    c == 0xFEFF as char || (IsWhitespace(c) && c != 0x85 as char)
  }

  function JsTrimStart(s: string): string {
    if s != "" && IsJsSpace(s[0]) then JsTrimStart(s[1..]) else s
  }

  function JsTrimEnd(s: string): string {
    if s != "" && IsJsSpace(s[|s| - 1]) then JsTrimEnd(s[..|s| - 1]) else s
  }

  function JsTrim(s: string): string {
    JsTrimEnd(JsTrimStart(s))
  }

  /** The payload lines of a frame, in order. */
  function DataLines(lines: seq<string>): seq<string> {
    if lines == [] then []
    else
      var line := lines[|lines| - 1];
      DataLines(lines[..|lines| - 1]) + if StartsWith(line, "data:") then [JsTrimStart(line[5..])] else []
  }

  /** The name given by the last event line. */
  function EventName(lines: seq<string>): Option<string> {
    if lines == [] then None
    else
      var line := lines[|lines| - 1];
      if StartsWith(line, "event:") then Some(JsTrim(line[6..])) else EventName(lines[..|lines| - 1])
  }

  function Parsed(frame: string): Option<Frame> {
    var lines := Split(frame);
    if DataLines(lines) == [] then None else Some(Frame(EventName(lines), Join(DataLines(lines))))
  }

  /** A line is at most one of comment, event and data. */
  lemma PrefixesDiffer(line: string)
    ensures line == "" || StartsWith(line, ":") ==> !StartsWith(line, "event:") && !StartsWith(line, "data:")
    ensures StartsWith(line, "event:") ==> !StartsWith(line, "data:")
  {
    if line != "" {
      assert ":"[0] == ':' && "event:"[0] == 'e' && "data:"[0] == 'd';
    }
  }

  method ParseSseFrame(frame: string) returns (r: Option<Frame>)
    ensures r == Parsed(frame)
  {
    var lines := Split(frame);
    var dataLines: seq<string> := [];
    var eventName: Option<string> := None;
    for i := 0 to |lines|
      invariant dataLines == DataLines(lines[..i]) && eventName == EventName(lines[..i])
    {
      assert lines[..i + 1][..i] == lines[..i];
      var line := lines[i];
      PrefixesDiffer(line);
      if line == "" || StartsWith(line, ":") {
        continue;
      }
      if StartsWith(line, "event:") {
        eventName := Some(JsTrim(line[6..]));
        continue;
      }
      if StartsWith(line, "data:") {
        dataLines := dataLines + [JsTrimStart(line[5..])];
      }
    }
    assert lines[..|lines|] == lines;
    if |dataLines| == 0 {
      return None;
    }
    r := Some(Frame(eventName, Join(dataLines)));
  }

  // ----- The whole stream

  /** The events of a list of frames, up to the first payload that does not decode. */
  function Events<E>(frames: seq<string>, decode: string -> Option<E>): (seq<E>, bool)
    decreases |frames|
  {
    if frames == [] then ([], true)
    else
      var frame := Parsed(frames[0]);
      if frame.None? then Events(frames[1..], decode)
      else
        var event := decode(frame.value.data);
        if event.None? then ([], false)
        else
          var (later, ok) := Events(frames[1..], decode);
          ([event.value] + later, ok)
  }

  /** `flushed` is what the text decoder still holds at the end of the stream. */
  method DecodeThreadEvents<E>(chunks: seq<string>, flushed: string, decode: string -> Option<E>)
    returns (events: seq<E>, ok: bool)
    ensures (events, ok) == Events(DrainText(NormalizeEach(chunks) + flushed).frames, decode)
  {
    var buffer := "";
    events := [];
    ghost var seen: seq<string> := [];
    for k := 0 to |chunks|
      invariant DrainText(NormalizeEach(chunks[..k])) == Drained(seen, buffer)
      invariant Events(seen, decode) == (events, true)
    {
      assert chunks[..k + 1][..k] == chunks[..k];
      ghost var before := buffer;
      var frames, rest := DrainFrames(buffer + Normalize(chunks[k]));
      DrainEarly(NormalizeEach(chunks[..k]), Normalize(chunks[k]));
      buffer := rest;
      ghost var text := NormalizeEach(chunks[..k + 1]);
      assert DrainText(text) == Drained(seen + frames, buffer);
      ghost var all := NormalizeEach(chunks) + flushed;
      LaterFrames(chunks, k + 1, flushed);
      events, ok := DecodeFrames(frames, decode, seen, events);
      if !ok {
        ghost var more :| DrainText(all).frames == seen + frames + more;
        EventsStop(seen + frames, more, decode);
        return;
      }
      seen := seen + frames;
    }
    assert chunks[..|chunks|] == chunks;
    var frames, _ := DrainFrames(buffer + flushed);
    DrainEarly(NormalizeEach(chunks), flushed);
    events, ok := DecodeFrames(frames, decode, seen, events);
  }

  method DecodeFrames<E>(frames: seq<string>, decode: string -> Option<E>, ghost seen: seq<string>, was: seq<E>)
    returns (events: seq<E>, ok: bool)
    requires Events(seen, decode) == (was, true)
    ensures (events, ok) == Events(seen + frames, decode)
  {
    hide Events, Parsed;
    events := was;
    assert seen + frames[..0] == seen;
    for i := 0 to |frames|
      invariant Events(seen + frames[..i], decode) == (events, true)
    {
      var frame := ParseSseFrame(frames[i]);
      EventsNext(seen + frames[..i], frames[i], decode);
      assert seen + frames[..i + 1] == seen + frames[..i] + [frames[i]];
      if frame.None? {
        continue;
      }
      var event := decode(frame.value.data);
      if event.None? {
        assert seen + frames == seen + frames[..i + 1] + frames[i + 1..];
        EventsStop(seen + frames[..i + 1], frames[i + 1..], decode);
        return events, false;
      }
      events := events + [event.value];
    }
    ok := true;
    assert frames[..|frames|] == frames;
  }

  lemma {:induction false} EventsNext<E>(frames: seq<string>, frame: string, decode: string -> Option<E>)
    requires Events(frames, decode).1
    ensures var parsed := Parsed(frame);
            Events(frames + [frame], decode) ==
              if parsed.None? then Events(frames, decode)
              else if decode(parsed.value.data).None? then (Events(frames, decode).0, false)
              else (Events(frames, decode).0 + [decode(parsed.value.data).value], true)
    decreases |frames|
  {
    hide Parsed;
    if frames == [] {
      assert frames + [frame] == [frame] && [frame][1..] == [];
      assert Events([frame][1..], decode) == ([], true);
      var parsed := Parsed([frame][0]);
      if parsed.Some? && decode(parsed.value.data).Some? {
        var v := decode(parsed.value.data).value;
        assert [v] + [] == [] + [v];
        assert Events([frame], decode) == ([v] + [], true);
      }
    } else {
      assert (frames + [frame])[1..] == frames[1..] + [frame] && (frames + [frame])[0] == frames[0];
      EventsNext(frames[1..], frame, decode);
      var first, parsed := Parsed(frames[0]), Parsed(frame);
      if first.Some? && parsed.Some? && decode(parsed.value.data).Some? {
        var later := Events(frames[1..], decode).0;
        var e, v := decode(first.value.data).value, decode(parsed.value.data).value;
        assert [e] + (later + [v]) == [e] + later + [v];
      }
    }
  }

  /** After a payload that does not decode nothing more is delivered. */
  lemma {:induction false} EventsStop<E>(frames: seq<string>, more: seq<string>, decode: string -> Option<E>)
    requires !Events(frames, decode).1
    ensures Events(frames + more, decode) == Events(frames, decode)
    decreases |frames|
  {
    hide Parsed;
    assert (frames + more)[1..] == frames[1..] + more;
    if Parsed(frames[0]).None? || decode(Parsed(frames[0]).value.data).Some? {
      EventsStop(frames[1..], more, decode);
    }
  }

  /** The frames of a prefix of the stream start the frames of the whole. */
  lemma {:induction false} LaterFrames(chunks: seq<string>, k: nat, flushed: string)
    requires k <= |chunks|
    ensures exists more :: DrainText(NormalizeEach(chunks) + flushed).frames
                           == DrainText(NormalizeEach(chunks[..k])).frames + more
    decreases |chunks|
  {
    hide DrainText, Normalize;
    var n := |chunks|;
    if k == n {
      assert chunks[..k] == chunks;
      DrainEarly(NormalizeEach(chunks), flushed);
    } else {
      var last := Normalize(chunks[n - 1]);
      assert chunks[..n - 1][..k] == chunks[..k];
      LaterFrames(chunks[..n - 1], k, last + flushed);
      assert NormalizeEach(chunks) + flushed == NormalizeEach(chunks[..n - 1]) + (last + flushed);
    }
  }

  /** The events delivered do not depend on how the stream was cut, for every cutting that keeps each
      carriage return with its line feed. */
  lemma EventsAnyChunking<E>(chunks: seq<string>, flushed: string, decode: string -> Option<E>)
    requires forall k: nat :: !SplitsAt(chunks, k)
    ensures Events(DrainText(NormalizeEach(chunks) + flushed).frames, decode)
         == Events(DrainText(Normalize(Joined(chunks)) + flushed).frames, decode)
  {
    NormalizePerChunkExactly(chunks);
  }

  /** Where the chunks do split one, a line end becomes a blank line and a frame falls in two. */
  lemma SplitMakesAFrame(x: string, y: string)
    requires x != "" && y != "" && forall c <- x + y :: c != '\r' && c != '\n'
    ensures DrainText(NormalizeEach([x + "\r", "\n" + y + "\r\n\r\n"])).frames == [x, y]
    ensures DrainText(Normalize((x + "\r") + ("\n" + y + "\r\n\r\n"))).frames == [x + "\n" + y]
  {
    hide Normalize, DrainText;
    LineOnly(x, y);
    var end := "\r\n\r\n";
    EndingsNormal();
    NormalizeConcat(x, "\r");
    NormalizeConcat("\n" + y, end);
    NormalizeConcat(x, "\r\n" + y + end);
    NormalizeConcat("\r\n" + y, end);
    NormalizeConcat("\r\n", y);
    PlainStaysPlain("\n" + y);
    PlainStaysPlain(x);
    PlainStaysPlain(y);
    assert (x + "\r") + ("\n" + y + end) == x + ("\r\n" + y + end);
    TwoChunks(x + "\r", "\n" + y + end);
    assert x + "\n" + ("\n" + y + "\n\n") == x + "\n\n" + (y + "\n\n" + "");
    assert x + ("\n" + y + "\n\n") == (x + "\n" + y) + "\n\n" + "";
    DrainNothing();
    DrainOne(x, y + "\n\n" + "");
    DrainOne(y, "");
    DrainOne(x + "\n" + y, "");
  }

  lemma LineOnly(x: string, y: string)
    requires forall c <- x + y :: c != '\r' && c != '\n'
    ensures forall i :: 0 <= i < |x| ==> x[i] != '\r' && x[i] != '\n'
    ensures forall i :: 0 <= i < |y| ==> y[i] != '\r' && y[i] != '\n'
  {
    forall i | 0 <= i < |x| ensures x[i] != '\r' && x[i] != '\n' {
      assert (x + y)[i] == x[i] && (x + y)[i] in x + y;
    }
    forall i | 0 <= i < |y| ensures y[i] != '\r' && y[i] != '\n' {
      assert (x + y)[|x| + i] == y[i] && (x + y)[|x| + i] in x + y;
    }
  }

  lemma EndingsNormal()
    ensures Normalize("\r") == "\n" && Normalize("\r\n") == "\n" && Normalize("\r\n\r\n") == "\n\n"
  {
    assert "\r\n\r\n"[2..] == "\r\n" && "\r\n"[2..] == "";
    assert "\n\n"[1..] == "\n" && "\n"[1..] == "" && "\r"[1..] == "";
  }

  lemma TwoChunks(a: string, b: string)
    ensures NormalizeEach([a, b]) == Normalize(a) + Normalize(b)
  {
    hide Normalize;
    assert [a, b][..1] == [a] && [a][..0] == [];
    assert NormalizeEach([a]) == "" + Normalize(a);
  }

  lemma DrainNothing()
    ensures DrainText("") == Drained([], "")
  {
  }

  /** A frame without a blank line is the first one cut off. */
  lemma DrainOne(frame: string, rest: string)
    requires frame != "" && frame[|frame| - 1] != '\n'
    requires forall i :: 0 <= i < |frame| - 1 ==> frame[i] != '\n' || frame[i + 1] != '\n'
    ensures DrainText(frame + "\n\n" + rest) == Drained([frame] + DrainText(rest).frames, DrainText(rest).rest)
  {
    hide DrainText, Find;
    var s, n := frame + "\n\n" + rest, |frame|;
    assert s[n..n + 2] == "\n\n";
    forall j | 0 <= j < n ensures !OccursAt(s, "\n\n", j) {
      assert s[j] == frame[j];
      if j + 1 < n {
        assert s[j + 1] == frame[j + 1];
      }
      assert s[j..j + 2] == [s[j], s[j + 1]];
    }
    FindIs(s, "\n\n", n);
    DrainStep(s, n);
    assert s[..n] == frame && s[n + 2..] == rest;
  }
}
