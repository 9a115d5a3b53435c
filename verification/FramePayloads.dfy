/** What a frame of several lines means, on the lists of its lines: for the event parser and for the TypeScript
    client. */
module FramePayloads {
  import opened Options
  import opened Strings
  import opened SummaryLaws
  import S = SseEvents
  import T = ThreadStream
  import Rows

  // ----- Frames as lists of lines

  /** A line that names the event, one that carries data, or any other: a comment or an unknown field. */
  datatype FrameLine =
    | EventLine(gap: string, name: string)
    | DataLine(gap: string, text: string)
    | OtherLine(line: string)

  function Shown(l: FrameLine): string {
    match l
    case EventLine(gap, name) => "event:" + (gap + name)
    case DataLine(gap, text) => "data:" + (gap + text)
    case OtherLine(line) => line
  }

  function AllShown(lines: seq<FrameLine>): seq<string> {
    seq(|lines|, i requires 0 <= i < |lines| => Shown(lines[i]))
  }

  function FrameText(lines: seq<FrameLine>): string
    requires lines != []
  {
    Rows.Join(AllShown(lines))
  }

  /** The data lines, in order. */
  function DataTexts(lines: seq<FrameLine>): seq<string> {
    if lines == [] then []
    else (if lines[0].DataLine? then [lines[0].text] else []) + DataTexts(lines[1..])
  }

  /** The name that the last event line gives. */
  predicate NamedLast(lines: seq<FrameLine>, name: Option<string>) {
    if name.None? then forall i | 0 <= i < |lines| :: !lines[i].EventLine?
    else exists i | 0 <= i < |lines| :: NamedAt(lines, i, name.value)
  }

  predicate NamedAt(lines: seq<FrameLine>, i: nat, name: string) {
    i < |lines| && lines[i].EventLine? && lines[i].name == name && forall j | i < j < |lines| :: !lines[j].EventLine?
  }

  predicate Known(line: string) {
    "event:" <= line || "data:" <= line
  }

  /** One line of text with nothing to trim where the parser trims. */
  predicate Fits(l: FrameLine) {
    && Rows.Flat(Shown(l)) && (Shown(l) != "" ==> Shown(l)[|Shown(l)| - 1] != '\r')
    && match l
       case EventLine(gap, name) => Gap(gap) && (name == "" || (!Spacy(name[0]) && !Spacy(name[|name| - 1])))
       case DataLine(gap, text) => Gap(gap) && (text == "" || !Spacy(text[0]))
       case OtherLine(line) => !Known(line)
  }

  predicate Gap(gap: string) {
    forall i | 0 <= i < |gap| :: gap[i] == ' ' || gap[i] == '\t'
  }

  /** White space for Rust or for JavaScript. */
  predicate Spacy(c: char) {
    IsWhitespace(c) || T.IsJsSpace(c)
  }

  predicate AllFit(lines: seq<FrameLine>) {
    forall i | 0 <= i < |lines| :: Fits(lines[i])
  }

  /** The text of a frame falls into the lines it was made of. */
  lemma FrameSplits(lines: seq<FrameLine>)
    requires lines != [] && AllFit(lines)
    ensures Rows.Split(FrameText(lines)) == AllShown(lines)
  {
    hide Rows.Split, Rows.Join, Rows.Flat, Shown;
    var rows := AllShown(lines);
    forall r | 0 <= r < |rows| ensures Rows.Flat(rows[r]) {
      assert Fits(lines[r]);
    }
    Rows.JoinRoundTrip(rows);
  }

  // ----- Names

  lemma NameNext(lines: seq<FrameLine>, last: FrameLine, name: Option<string>)
    requires NamedLast(lines, name)
    ensures NamedLast(lines + [last], if last.EventLine? then Some(last.name) else name)
  {
    var all := lines + [last];
    if last.EventLine? {
      assert NamedAt(all, |lines|, last.name);
    } else if name.Some? {
      var i :| 0 <= i < |lines| && NamedAt(lines, i, name.value);
      assert NamedAt(all, i, name.value);
    }
  }

  lemma {:induction false} DataNext(lines: seq<FrameLine>, last: FrameLine)
    ensures DataTexts(lines + [last]) == DataTexts(lines) + if last.DataLine? then [last.text] else []
  {
    if lines == [] {
      assert lines + [last] == [last] && [last][1..] == [];
    } else {
      DataNext(lines[1..], last);
      var head := if lines[0].DataLine? then [lines[0].text] else [];
      DataFirst(lines[0], lines[1..]);
      DataFirst(lines[0], lines[1..] + [last]);
      hide DataTexts;
      assert lines == [lines[0]] + lines[1..] && lines + [last] == [lines[0]] + (lines[1..] + [last]);
      if last.DataLine? {
        assert head + (DataTexts(lines[1..]) + [last.text]) == head + DataTexts(lines[1..]) + [last.text];
      }
    }
  }

  lemma DataFirst(first: FrameLine, rest: seq<FrameLine>)
    ensures DataTexts([first] + rest) == (if first.DataLine? then [first.text] else []) + DataTexts(rest)
  {
    assert ([first] + rest)[1..] == rest;
  }

  lemma ShownNext(lines: seq<FrameLine>, last: FrameLine)
    ensures AllShown(lines + [last]) == AllShown(lines) + [Shown(last)]
  {
    hide Shown;
  }

  // ----- The event parser

  lemma {:induction false} RustGap(gap: string, text: string)
    requires Gap(gap) && (text == "" || !Spacy(text[0]))
    ensures TrimStart(gap + text) == text
  {
    if gap == "" {
      assert gap + text == text;
    } else {
      assert (gap + text)[1..] == gap[1..] + text;
      RustGap(gap[1..], text);
    }
  }

  lemma RustEvent(gap: string, name: string)
    requires Gap(gap) && (name == "" || (!Spacy(name[0]) && !Spacy(name[|name| - 1])))
    ensures Trim(gap + name) == name
  {
    RustGap(gap, name);
  }

  lemma LineMeaning(f: S.Fields, l: FrameLine)
    requires Fits(l)
    ensures S.AddLine(f, Shown(l)) ==
              match l
              case EventLine(_, name) => f.(name := Some(name))
              case DataLine(_, text) => f.(data := f.data + [text])
              case OtherLine(_) => f
  {
    hide Rows.Flat, Trim, TrimEnd, TrimStart, Spacy, Gap;
    match l {
      case EventLine(gap, name) =>
        RustEvent(gap, name);
        var line := "event:" + (gap + name);
        assert line[0] == 'e' && line[..6] == "event:" && line[6..] == gap + name;
        assert ":" != line[..1];
      case DataLine(gap, text) =>
        RustGap(gap, text);
        var line := "data:" + (gap + text);
        assert line[0] == 'd' && line[..5] == "data:" && line[5..] == gap + text;
        assert ":" != line[..1] && !("event:" <= line);
      case OtherLine(line) =>
    }
  }

  lemma {:induction false} FieldsMean(lines: seq<FrameLine>) returns (name: Option<string>)
    requires AllFit(lines)
    ensures S.FieldsOf(AllShown(lines)) == S.Fields(name, DataTexts(lines)) && NamedLast(lines, name)
  {
    hide Fits, Shown, S.AddLine;
    if lines == [] {
      name := None;
    } else {
      var n := |lines| - 1;
      var front, last := lines[..n], lines[n];
      assert lines == front + [last];
      var before := FieldsMean(front);
      ShownNext(front, last);
      DataNext(front, last);
      NameNext(front, last, before);
      assert (AllShown(front) + [Shown(last)])[..n] == AllShown(front);
      LineMeaning(S.FieldsOf(AllShown(front)), last);
      name := if last.EventLine? then Some(last.name) else before;
    }
  }

  /** What a frame of these lines hands to the JSON decoder: the data lines joined by newlines, unless there is
      none, the last event line names a ping, or the whole is the end mark. */
  lemma PayloadOfLines(lines: seq<FrameLine>, name: Option<string>)
    requires lines != [] && AllFit(lines) && NamedLast(lines, name)
    requires Tight(FrameText(lines)) && FrameText(lines) != ""
    ensures var data := DataTexts(lines);
            S.Payload(FrameText(lines)) ==
              if data == [] || name == Some("ping") || Rows.Join(data) == "[DONE]" then None
              else Some(Rows.Join(data))
  {
    hide Fits, Shown, DataTexts, S.FieldsOf, Trim, Rows.Join, Rows.Split, Tight;
    var found := FieldsMean(lines);
    OneName(lines, name, found);
    TightTrims(FrameText(lines));
    FrameLines(lines);
  }

  lemma OneName(lines: seq<FrameLine>, a: Option<string>, b: Option<string>)
    requires NamedLast(lines, a) && NamedLast(lines, b)
    ensures a == b
  {
    if a.Some? && b.Some? {
      var i :| 0 <= i < |lines| && NamedAt(lines, i, a.value);
      var j :| 0 <= j < |lines| && NamedAt(lines, j, b.value);
    }
  }

  lemma FrameLines(lines: seq<FrameLine>)
    requires lines != [] && AllFit(lines) && Tight(FrameText(lines)) && FrameText(lines) != ""
    ensures Lines(FrameText(lines)) == AllShown(lines)
  {
    hide Rows.Split, Rows.Join, Shown;
    FrameSplits(lines);
    var rows := AllShown(lines);
    var n := |rows| - 1;
    LastShows(rows);
    forall i | 0 <= i < n ensures StripCR(rows[i]) == rows[i] {
      assert Fits(lines[i]);
    }
    hide Tight, StripCR;
    assert StripAll(rows[..n]) == rows[..n];
    assert rows == rows[..n] + [rows[n]];
  }

  /** A joined text that does not end in white space has a last row. */
  lemma {:induction false} LastShows(rows: seq<string>)
    requires rows != [] && Rows.Join(rows) != "" && !IsWhitespace(Rows.Join(rows)[|Rows.Join(rows)| - 1])
    ensures rows[|rows| - 1] != ""
  {
    if |rows| > 1 {
      var rest := Rows.Join(rows[1..]);
      if rest != "" {
        assert Rows.Join(rows)[|Rows.Join(rows)| - 1] == rest[|rest| - 1];
        LastShows(rows[1..]);
      }
    }
  }

  /** A JSON text that comes in two data lines is put together again. */
  lemma TwoDataLines()
    ensures S.Payload("data: {\ndata: }") == Some("{\n}")
  {
    var lines := [DataLine(" ", "{"), DataLine(" ", "}")];
    TwoShown(lines);
    TwoTexts(lines);
    JoinedTwice("data: {", "data: }");
    JoinedTwice("{", "}");
    TwoFit(lines);
    hide *;
    assert "data: {" + "\n" + "data: }" == "data: {\ndata: }" && "{" + "\n" + "}" == "{\n}" != "[DONE]";
    PayloadOfLines(lines, None);
  }

  lemma TwoShown(lines: seq<FrameLine>)
    requires lines == [DataLine(" ", "{"), DataLine(" ", "}")]
    ensures AllShown(lines) == ["data: {", "data: }"] && FrameText(lines) == Rows.Join(["data: {", "data: }"])
  {
    hide Rows.Join;
    assert Shown(lines[0]) == "data: {" && Shown(lines[1]) == "data: }";
  }

  lemma TwoTexts(lines: seq<FrameLine>)
    requires lines == [DataLine(" ", "{"), DataLine(" ", "}")]
    ensures DataTexts(lines) == ["{", "}"]
  {
    DataFirst(DataLine(" ", "}"), []);
    DataFirst(DataLine(" ", "{"), [DataLine(" ", "}")]);
    assert [DataLine(" ", "}")] + [] == [DataLine(" ", "}")] && [DataLine(" ", "{")] + [DataLine(" ", "}")] == lines;
    assert DataTexts([DataLine(" ", "}")]) == ["}"];
  }

  lemma TwoFit(lines: seq<FrameLine>)
    requires lines == [DataLine(" ", "{"), DataLine(" ", "}")]
    ensures AllFit(lines) && NamedLast(lines, None)
    ensures Tight("data: {\ndata: }") && "data: {\ndata: }" != ""
  {
    assert Shown(lines[0]) == "data: {" && Shown(lines[1]) == "data: }";
    assert Rows.Flat("data: {") && Rows.Flat("data: }");
  }

  lemma JoinedTwice(a: string, b: string)
    ensures Rows.Join([a, b]) == a + "\n" + b
  {
    assert [a, b][1..] == [b];
  }

  // ----- Either line end

  /** A frame of which each line but the last is ended by a newline, after a carriage return where `cr` says so. */
  function SentFrame(lines: seq<FrameLine>, cr: nat -> bool): string
    requires lines != []
  {
    Rows.Join(SentRows(lines, cr))
  }

  function SentRows(lines: seq<FrameLine>, cr: nat -> bool): seq<string> {
    seq(|lines|, i requires 0 <= i < |lines| =>
      if i < |lines| - 1 && cr(i) then Shown(lines[i]) + "\r" else Shown(lines[i]))
  }

  lemma RowWithReturn(row: string)
    requires Rows.Flat(row) && (row == "" || row[|row| - 1] != '\r')
    ensures Rows.Flat(row + "\r") && StripCR(row + "\r") == row && StripCR(row) == row
  {
    assert (row + "\r")[..|row|] == row;
  }

  lemma SentFrameLines(lines: seq<FrameLine>, cr: nat -> bool)
    requires lines != [] && AllFit(lines) && Shown(lines[|lines| - 1]) != ""
    ensures Lines(SentFrame(lines, cr)) == AllShown(lines)
  {
    hide Rows.Split, Rows.Join, Rows.Flat, Shown, StripCR;
    var rows, n := SentRows(lines, cr), |lines| - 1;
    forall r | 0 <= r <= n
      ensures Rows.Flat(rows[r]) && StripCR(rows[r]) == Shown(lines[r])
    {
      assert Fits(lines[r]);
      RowWithReturn(Shown(lines[r]));
    }
    Rows.JoinRoundTrip(rows);
    hide Fits;
    assert StripAll(rows[..n]) == AllShown(lines)[..n];
    assert AllShown(lines) == AllShown(lines)[..n] + [AllShown(lines)[n]];
  }

  /** The payload does not depend on which line ends the lines are sent with. */
  lemma PayloadOfEitherEnd(lines: seq<FrameLine>, cr: nat -> bool)
    requires lines != [] && AllFit(lines) && Tight(FrameText(lines)) && FrameText(lines) != ""
    ensures S.Payload(SentFrame(lines, cr)) == S.Payload(FrameText(lines))
  {
    FrameLines(lines);
    LastShows(AllShown(lines));
    SentFrameLines(lines, cr);
    SentTight(lines, cr);
    TightTrims(FrameText(lines));
    TightTrims(SentFrame(lines, cr));
    hide Fits, Shown, S.FieldsOf, Trim, Rows.Join, Rows.Split, Tight, Lines, SentFrame, FrameText;
  }

  /** Carriage returns inside leave the two ends of the frame alone. */
  lemma SentTight(lines: seq<FrameLine>, cr: nat -> bool)
    requires lines != [] && Tight(FrameText(lines)) && FrameText(lines) != "" && Shown(lines[|lines| - 1]) != ""
    ensures SentFrame(lines, cr) != "" && Tight(SentFrame(lines, cr))
  {
    hide Shown, Rows.Join, IsWhitespace;
    NewlineIsSpace();
    JoinEnds(AllShown(lines));
    JoinEnds(SentRows(lines, cr));
  }

  lemma NewlineIsSpace()
    ensures IsWhitespace('\n')
  {
  }

  lemma {:induction false} JoinEnds(rows: seq<string>)
    requires rows != [] && rows[|rows| - 1] != ""
    ensures var s, last := Rows.Join(rows), rows[|rows| - 1];
            s != "" && s[|s| - 1] == last[|last| - 1] && s[0] == if rows[0] == "" then '\n' else rows[0][0]
  {
    if |rows| > 1 {
      JoinEnds(rows[1..]);
    }
  }

  // ----- The TypeScript client

  lemma {:induction false} JsGap(gap: string, text: string)
    requires Gap(gap) && (text == "" || !Spacy(text[0]))
    ensures T.JsTrimStart(gap + text) == text
  {
    if gap == "" {
      assert gap + text == text;
    } else {
      assert (gap + text)[1..] == gap[1..] + text;
      JsGap(gap[1..], text);
    }
  }

  lemma JsEvent(gap: string, name: string)
    requires Gap(gap) && (name == "" || (!Spacy(name[0]) && !Spacy(name[|name| - 1])))
    ensures T.JsTrim(gap + name) == name
  {
    JsGap(gap, name);
  }

  lemma {:induction false} JsLines(lines: seq<FrameLine>) returns (name: Option<string>)
    requires AllFit(lines)
    ensures T.DataLines(AllShown(lines)) == DataTexts(lines)
    ensures T.EventName(AllShown(lines)) == name && NamedLast(lines, name)
  {
    hide Fits, Shown, T.JsTrim, T.JsTrimStart;
    if lines == [] {
      name := None;
    } else {
      var n := |lines| - 1;
      var front, last := lines[..n], lines[n];
      assert lines == front + [last];
      var before := JsLines(front);
      ShownNext(front, last);
      DataNext(front, last);
      NameNext(front, last, before);
      assert (AllShown(front) + [Shown(last)])[..n] == AllShown(front);
      JsLine(last);
      name := if last.EventLine? then Some(last.name) else before;
    }
  }

  lemma JsLine(l: FrameLine)
    requires Fits(l)
    ensures var line := Shown(l);
            && (StartsWith(line, "data:") <==> l.DataLine?) && (StartsWith(line, "event:") <==> l.EventLine?)
            && (l.DataLine? ==> T.JsTrimStart(line[5..]) == l.text)
            && (l.EventLine? ==> T.JsTrim(line[6..]) == l.name)
  {
    hide Rows.Flat, T.JsTrim, T.JsTrimStart, Spacy, Gap;
    match l {
      case EventLine(gap, name) =>
        JsEvent(gap, name);
        var line := "event:" + (gap + name);
        assert line[0] == 'e' && line[..6] == "event:" && line[6..] == gap + name;
        assert "data:"[0] == 'd';
      case DataLine(gap, text) =>
        JsGap(gap, text);
        var line := "data:" + (gap + text);
        assert line[0] == 'd' && line[..5] == "data:" && line[5..] == gap + text;
        assert "event:"[0] == 'e';
      case OtherLine(line) =>
    }
  }

  /** What a frame of these lines is for the client: the last name and the joined data lines, or nothing without
      any. */
  lemma FrameOfLines(lines: seq<FrameLine>, name: Option<string>)
    requires lines != [] && AllFit(lines) && NamedLast(lines, name)
    ensures var data := DataTexts(lines);
            T.Parsed(FrameText(lines)) == if data == [] then None else Some(T.Frame(name, Rows.Join(data)))
  {
    hide Fits, Shown, DataTexts, T.DataLines, T.EventName, Rows.Join, Rows.Split;
    var found := JsLines(lines);
    OneName(lines, name, found);
    FrameSplits(lines);
  }
}
