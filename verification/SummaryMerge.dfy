/** What formatting makes of a merged summary, and how earlier highlights live on through merges. */
module SummaryMerge {
  import opened Options
  import opened Strings
  import opened Search
  import opened SummaryText
  import opened SummaryLaws
  import Rows

  // ----- Clean rows go through the formatter unchanged

  lemma CleanNotBlank(line: string)
    requires Clean(line)
    ensures !IsBlank(line) && StripCR(line) == line
  {
    NotAllBlank(line);
  }

  lemma {:induction false} NotAllBlank(line: string)
    requires line != "" && !IsWhitespace(line[|line| - 1])
    ensures TrimStart(line) != "" && !IsWhitespace(TrimStart(line)[|TrimStart(line)| - 1])
  {
    if IsWhitespace(line[0]) { NotAllBlank(line[1..]); }
  }

  lemma {:induction false} CollapsedClean(rows: seq<string>)
    requires rows != [] && AllClean(rows)
    ensures Collapsed(rows, false) == Rows.Join(rows) + "\n"
  {
    hide IsBlank, Clean;
    CleanNotBlank(rows[0]);
    if |rows| > 1 {
      CollapsedClean(rows[1..]);
      assert rows[0] + "\n" + (Rows.Join(rows[1..]) + "\n") == (rows[0] + "\n" + Rows.Join(rows[1..])) + "\n";
    } else {
      assert rows[1..] == [];
      assert rows[0] + "\n" + "" == rows[0] + "\n";
    }
  }

  lemma LinesOfJoin(rows: seq<string>)
    requires rows != [] && AllClean(rows)
    ensures Lines(Rows.Join(rows)) == rows
  {
    hide Rows.Join, Rows.Flat, Rows.Split, StripCR, StripAll;
    forall r | 0 <= r < |rows| ensures Rows.Flat(rows[r]) && rows[r] != "" && StripCR(rows[r]) == rows[r] {
      assert Clean(rows[r]);
      CleanNotBlank(rows[r]);
    }
    hide AllClean, Clean;
    Rows.JoinRoundTrip(rows);
    StripAllSame(rows[..|rows| - 1]);
    InitAndLast(rows);
  }

  lemma InitAndLast<T>(rows: seq<T>)
    requires rows != []
    ensures rows[..|rows| - 1] + [rows[|rows| - 1]] == rows
  {
  }

  lemma StripAllSame(rows: seq<string>)
    requires forall r :: 0 <= r < |rows| ==> StripCR(rows[r]) == rows[r]
    ensures StripAll(rows) == rows
  {
    hide StripCR;
  }

  lemma {:induction false} JoinEnds(rows: seq<string>)
    requires rows != [] && (forall r :: 0 <= r < |rows| ==> rows[r] != "")
    ensures var s := Rows.Join(rows);
            s != "" && s[0] == rows[0][0] && s[|s| - 1] == rows[|rows| - 1][|rows[|rows| - 1]| - 1]
  {
    if |rows| > 1 { JoinEnds(rows[1..]); }
  }

  lemma JoinTight(rows: seq<string>)
    requires rows != [] && AllClean(rows) && !IsWhitespace(rows[0][0])
    ensures Tight(Rows.Join(rows)) && Rows.Join(rows) != ""
  {
    assert forall r :: 0 <= r < |rows| ==> Clean(rows[r]);
    hide IsWhitespace, Rows.Join;
    JoinEnds(rows);
  }

  lemma TrimNewlineAfter(s: string)
    requires Tight(s) && s != ""
    ensures Trim(s + "\n") == s
  {
    assert (s + "\n")[..|s|] == s && (s + "\n")[0] == s[0];
    assert TrimEnd(s) == s;
    assert TrimEnd(s + "\n") == s;
  }

  lemma TrimNewlinesAround(s: string)
    requires Tight(s) && s != ""
    ensures Trim("\n" + s + "\n") == s
  {
    TrimNewlineAfter(s);
    assert ("\n" + s + "\n")[1..] == s + "\n" && (s + "\n")[0] == s[0];
    assert TrimStart(s + "\n") == s + "\n";
  }

  /** Joined clean rows, brought through line cleaning and trimming. */
  lemma CollapsedTrims(rows: seq<string>)
    requires rows != [] && AllClean(rows) && !IsWhitespace(rows[0][0])
    ensures Trim(Collapsed(rows, false)) == Rows.Join(rows)
  {
    hide AllClean, Collapsed, Trim, Rows.Join, Tight;
    CollapsedClean(rows);
    JoinTight(rows);
    TrimNewlineAfter(Rows.Join(rows));
  }

  // ----- Tags

  lemma TagNames()
    ensures "<" + "analysis" + ">" == AnalysisOpen()
    ensures "<" + "summary" + ">" == SummaryOpen()
    ensures "</" + "summary" + ">" == SummaryClose()
    ensures Rows.Flat(AnalysisOpen()) && Rows.Flat(SummaryOpen()) && Rows.Flat(SummaryClose())
    ensures |SummaryOpen()| == 9 && AnalysisOpen() != "" && SummaryClose() != ""
  {
  }

  lemma WrappersTagFree()
    ensures !Contains(SummaryOpen(), AnalysisOpen()) && !Contains(SummaryClose(), AnalysisOpen())
    ensures TagFree("") && TagFree("Summary:") && TagFree(Title())
    ensures TagFree(PreviousHeading()) && TagFree(NewHeading()) && TagFree(TimelineHeading())
  {
    ShortHasNoTag(SummaryOpen(), AnalysisOpen());
    SameLengthTag(SummaryClose());
    NoAngles();
    hide TagFree;
    NoTag("");
    NoTag("Summary:");
    NoTag(Title());
    NoTag(PreviousHeading());
    NoTag(NewHeading());
    NoTag(TimelineHeading());
  }

  lemma NoAngles()
    ensures '<' !in Title() && '<' !in PreviousHeading() && '<' !in NewHeading() && '<' !in TimelineHeading()
  {
  }

  lemma ShortHasNoTag(s: string, tag: string)
    requires |s| < |tag|
    ensures !Contains(s, tag)
  {
  }

  lemma SameLengthTag(s: string)
    requires s == SummaryClose()
    ensures !Contains(s, AnalysisOpen())
  {
    assert s[0..10] == s && s[1] != AnalysisOpen()[1];
    forall j: nat ensures !OccursAt(s, AnalysisOpen(), j) {
    }
    assert Find(s, AnalysisOpen()).None?;
  }

  lemma NoTag(s: string)
    requires '<' !in s
    ensures TagFree(s)
  {
    LacksFirst(s, AnalysisOpen());
    LacksFirst(s, SummaryClose());
  }

  lemma LacksFirst(s: string, tag: string)
    requires tag != "" && tag[0] !in s
    ensures !Contains(s, tag)
  {
    forall j: nat ensures !OccursAt(s, tag, j) {
      if j + |tag| <= |s| { assert s[j..j + |tag|][0] == s[j]; }
    }
    assert Find(s, tag).None?;
  }

  // ----- Formatting a merged summary

  /** The rows of a merged summary between its tags. */
  predicate MergedRows(body: seq<string>) {
    && body != [] && AllClean(body) && AllTagFree(body) && !IsWhitespace(body[0][0])
  }

  function Wrapped(body: seq<string>): string
    requires body != []
  {
    Rows.Join([SummaryOpen()] + body + [SummaryClose()])
  }

  lemma {:induction false} JoinConcat(a: seq<string>, b: seq<string>)
    requires a != [] && b != []
    ensures Rows.Join(a + b) == Rows.Join(a) + "\n" + Rows.Join(b)
  {
    if |a| == 1 {
      assert (a + b)[1..] == b;
    } else {
      assert (a + b)[1..] == a[1..] + b;
      JoinConcat(a[1..], b);
      var x, y, z := a[0] + "\n", Rows.Join(a[1..]), "\n" + Rows.Join(b);
      assert x + (y + z) == (x + y) + z;
    }
  }

  /** The text between the summary tags. */
  function Inner(body: seq<string>): string
    requires body != []
  {
    "\n" + Rows.Join(body) + "\n"
  }

  lemma WrappedText(body: seq<string>)
    requires body != []
    ensures Wrapped(body) == SummaryOpen() + Inner(body) + SummaryClose()
  {
    hide Rows.Join;
    JoinConcat([SummaryOpen()] + body, [SummaryClose()]);
    JoinConcat([SummaryOpen()], body);
    JoinSingle(SummaryOpen());
    JoinSingle(SummaryClose());
    hide SummaryOpen, SummaryClose;
    var o, x, c := SummaryOpen(), Rows.Join(body), SummaryClose();
    assert o + "\n" + x + "\n" + c == o + ("\n" + x + "\n") + c;
  }

  lemma JoinSingle(row: string)
    ensures Rows.Join([row]) == row
  {
  }

  lemma InnerHasNoClose(body: seq<string>)
    requires body != [] && AllTagFree(body)
    ensures !Contains(Inner(body), SummaryClose())
  {
    hide Contains, Rows.Join, SummaryClose;
    TagNames();
    WrappersTagFree();
    var rows := [""] + body + [""];
    forall i | 0 <= i < |rows| ensures !Contains(rows[i], SummaryClose()) {
      if 0 < i <= |body| { assert TagFree(body[i - 1]); }
    }
    TagInJoin(rows, SummaryClose());
    JoinConcat([""] + body, [""]);
    JoinConcat([""], body);
    JoinSingle("");
    assert "" + "\n" + Rows.Join(body) + "\n" + "" == Inner(body);
  }

  lemma WrappedHasNoAnalysis(body: seq<string>)
    requires body != [] && AllTagFree(body)
    ensures !Contains(Wrapped(body), AnalysisOpen())
  {
    hide Contains, Rows.Join, SummaryClose, SummaryOpen, AnalysisOpen;
    TagNames();
    WrappersTagFree();
    var rows := [SummaryOpen()] + body + [SummaryClose()];
    forall i | 0 <= i < |rows| ensures !Contains(rows[i], AnalysisOpen()) {
      if 0 < i <= |body| { assert TagFree(body[i - 1]); }
    }
    TagInJoin(rows, AnalysisOpen());
  }

  /** A closing tag after a text that ends with a newline and does not hold it is found there. */
  lemma CloseFound(x: string, c: string)
    requires Rows.Flat(c) && c != "" && x != "" && x[|x| - 1] == '\n' && !Contains(x, c)
    ensures Find(x + c, c) == Some(|x|)
  {
    var s := x + c;
    forall j | 0 <= j < |x| ensures !OccursAt(s, c, j) {
      if j + |c| <= |x| {
        OccursInPrefix(x, c, c, j);
      } else if j + |c| <= |s| {
        assert s[j..j + |c|][|x| - 1 - j] == '\n';
      }
    }
    assert s[|x|..|x| + |c|] == c;
    FindIs(s, c, |x|);
  }

  lemma OpenFound(o: string, rest: string)
    ensures Find(o + rest, o) == Some(0)
  {
    assert (o + rest)[0..|o|] == o;
    FindIs(o + rest, o, 0);
  }

  lemma WrappedExtracts(body: seq<string>)
    requires body != [] && AllTagFree(body)
    ensures ExtractTagBlock(Wrapped(body), "summary") == Some(Inner(body))
  {
    WrappedText(body);
    TagNames();
    InnerHasNoClose(body);
    hide Wrapped, Contains, SummaryClose, SummaryOpen, Rows.Join;
    var o, x, c := SummaryOpen(), Inner(body), SummaryClose();
    OpenFound(o, x + c);
    assert o + (x + c) == o + x + c;
    assert (o + (x + c))[9..] == x + c;
    CloseFound(x, c);
    assert (x + c)[..|x|] == x;
  }

  lemma ReplaceWhole(s: string, replacement: string)
    requires s != ""
    ensures ReplaceAll(s, s, replacement) == replacement
  {
    OpenFound(s, "");
    assert s + "" == s;
    assert s[|s|..] == "";
    assert Find("", s).None?;
  }

  lemma WrappedUnwraps(body: seq<string>)
    requires MergedRows(body)
    ensures Unwrapped(Wrapped(body)) == "Summary:\n" + Rows.Join(body)
  {
    WrappedExtracts(body);
    WrappedText(body);
    JoinTight(body);
    TrimNewlinesAround(Rows.Join(body));
    hide Wrapped, ExtractTagBlock, Trim, Rows.Join, MergedRows;
    ReplaceWhole(Wrapped(body), "Summary:\n" + Rows.Join(body));
    assert "<summary>" + Inner(body) + "</summary>" == Wrapped(body);
  }

  /** Formatting a merged summary puts the heading in place of the tags. */
  lemma FormatWrapped(body: seq<string>)
    requires MergedRows(body)
    ensures Format(Wrapped(body)) == Rows.Join(["Summary:"] + body)
    ensures AllClean(["Summary:"] + body)
  {
    WrappedHasNoAnalysis(body);
    TagNames();
    WrappedUnwraps(body);
    assert StripTagBlock(Wrapped(body), "analysis") == Wrapped(body);
    hide Wrapped, Unwrapped, StripTagBlock, Trim, Lines, Collapsed, Rows.Join;
    JoinConcat(["Summary:"], body);
    JoinSingle("Summary:");
    assert "Summary:" + "\n" + Rows.Join(body) == "Summary:\n" + Rows.Join(body);
    HeadingClean();
    var rows := ["Summary:"] + body;
    forall i | 0 <= i < |rows| ensures Clean(rows[i]) {
      if i > 0 { assert Clean(body[i - 1]); }
    }
    LinesOfJoin(rows);
    CollapsedTrims(rows);
  }

  lemma HeadingClean()
    ensures Clean("Summary:")
  {
  }

  /** Formatting the formatted text again changes nothing. */
  lemma FormatAgain(body: seq<string>)
    requires MergedRows(body)
    ensures Format(Rows.Join(["Summary:"] + body)) == Rows.Join(["Summary:"] + body)
  {
    hide Format, Wrapped, MergedRows, Rows.Join, Contains, SummaryClose, AnalysisOpen, Lines, Collapsed, Trim;
    FormatWrapped(body);
    FormattedTagFree(body);
    UntaggedFormat(Rows.Join(["Summary:"] + body));
    LinesOfJoin(["Summary:"] + body);
    CollapsedTrims(["Summary:"] + body);
  }

  lemma FormattedTagFree(body: seq<string>)
    requires MergedRows(body)
    ensures TagFree(Rows.Join(["Summary:"] + body))
  {
    hide Contains, Rows.Join, SummaryClose, AnalysisOpen;
    TagNames();
    WrappersTagFree();
    var rows := ["Summary:"] + body;
    forall i | 0 <= i < |rows| ensures TagFree(rows[i]) {
      if i > 0 { assert TagFree(body[i - 1]); }
    }
    TagInJoin(rows, AnalysisOpen());
    TagInJoin(rows, SummaryClose());
  }

  lemma UntaggedFormat(text: string)
    requires TagFree(text)
    ensures Format(text) == Trim(Collapsed(Lines(text), false))
  {
    TagNames();
    assert StripTagBlock(text, "analysis") == text;
    NoCloseNoBlock(text);
    hide StripTagBlock, ExtractTagBlock, Contains, Trim, Lines, Collapsed;
  }

  lemma NoCloseNoBlock(s: string)
    requires !Contains(s, SummaryClose())
    ensures ExtractTagBlock(s, "summary").None?
  {
    TagNames();
    hide SummaryClose, SummaryOpen;
    if Find(s, SummaryOpen()).Some? {
      var k := Find(s, SummaryOpen()).value + 9;
      var rest := s[k..];
      forall j: nat ensures !OccursAt(rest, SummaryClose(), j) {
        OccursInSuffix(s, k, SummaryClose(), j);
      }
      assert Find(rest, SummaryClose()).None?;
    }
  }

  // ----- What the extractors find in a merged summary

  /** Lines the highlight extractor keeps as they are. */
  predicate Kept(line: string) {
    Clean(line) && !IsHeading(line) && line != TimelineHeading()
  }

  predicate AllKept(lines: seq<string>) {
    forall i :: 0 <= i < |lines| ==> Kept(lines[i])
  }

  lemma {:induction false} KeptLines(lines: seq<string>, rest: seq<string>)
    requires AllKept(lines)
    ensures HighlightLines(lines + rest) == lines + HighlightLines(rest)
    ensures TimelineLines(lines + rest, false) == TimelineLines(rest, false)
    decreases |lines|
  {
    hide Clean, IsHeading, TimelineHeading;
    if lines == [] {
      assert lines + rest == rest;
    } else {
      assert (lines + rest)[1..] == lines[1..] + rest;
      assert Kept(lines[0]);
      KeptLines(lines[1..], rest);
      CleanKeepsEnd(lines[0]);
    }
  }

  lemma CleanKeepsEnd(line: string)
    requires Clean(line)
    ensures TrimEnd(line) == line
  {
  }

  lemma IndentedKept(lines: seq<string>)
    requires AllClean(lines)
    ensures AllKept(Indented(lines))
  {
    hide Clean, IsHeading, TimelineHeading;
    forall i | 0 <= i < |lines| ensures Kept(Indented(lines)[i]) {
      assert Clean(lines[i]);
      IndentedClean(lines[i]);
    }
  }

  lemma HeadingsKept()
    ensures Kept(PreviousHeading()) && Kept(NewHeading())
    ensures Clean(TimelineHeading()) && !IsHeading(TimelineHeading())
    ensures Clean(Title()) && IsHeading(Title()) && IsHeading("Summary:")
  {
    HeadingPrevious();
    HeadingNew();
    HeadingTimeline();
    HeadingTitle();
  }

  lemma HeadingPrevious()
    ensures Kept(PreviousHeading())
  {
  }

  lemma HeadingNew()
    ensures Kept(NewHeading())
  {
  }

  lemma HeadingTimeline()
    ensures Clean(TimelineHeading()) && !IsHeading(TimelineHeading())
  {
  }

  lemma HeadingTitle()
    ensures Clean(Title()) && IsHeading(Title()) && IsHeading("Summary:")
    ensures Title() != TimelineHeading() && "Summary:" != TimelineHeading()
  {
  }

  lemma SectionKept(heading: string, lines: seq<string>)
    requires Kept(heading) && AllClean(lines)
    ensures AllKept(Section(heading, lines))
  {
    hide Kept, AllClean;
    IndentedKept(lines);
  }

  lemma AllKeptConcat(a: seq<string>, b: seq<string>)
    requires AllKept(a) && AllKept(b)
    ensures AllKept(a + b)
  {
    hide Kept;
  }

  lemma TimelineOnly(lines: seq<string>)
    requires AllClean(lines)
    ensures HighlightLines(Section(TimelineHeading(), lines)) == []
    ensures TimelineLines(Section(TimelineHeading(), lines), false) == Indented(lines)
  {
    HeadingTimeline();
    CleanKeepsEnd(TimelineHeading());
    hide Clean, IsHeading, TimelineHeading;
    if lines != [] {
      IndentedKept(lines);
      KeptAfterHeading(Indented(lines));
      assert Section(TimelineHeading(), lines)[1..] == Indented(lines);
    } else {
      assert Indented(lines) == [];
    }
  }

  lemma {:induction false} KeptAfterHeading(lines: seq<string>)
    requires AllKept(lines)
    ensures TimelineLines(lines, true) == lines
    decreases |lines|
  {
    if lines != [] {
      assert Kept(lines[0]);
      CleanKeepsEnd(lines[0]);
      assert lines[0] != "";
      hide Clean, TimelineHeading;
      KeptAfterHeading(lines[1..]);
    }
  }

  lemma HeadingSkipped(line: string, rest: seq<string>)
    requires Clean(line) && IsHeading(line) && line != TimelineHeading()
    ensures HighlightLines([line] + rest) == HighlightLines(rest)
    ensures TimelineLines([line] + rest, false) == TimelineLines(rest, false)
  {
    CleanKeepsEnd(line);
    hide Clean, IsHeading, TimelineHeading;
    assert ([line] + rest)[1..] == rest;
  }

  /** The lines of a formatted merged summary, given what the two summaries held. */
  lemma MergedLines(previous: seq<string>, new_: seq<string>, timeline: seq<string>)
    requires AllClean(previous) && AllClean(new_) && AllClean(timeline)
    ensures var kept := Section(PreviousHeading(), previous) + Section(NewHeading(), new_);
            var lines := ["Summary:"] + ([Title()] + Section(PreviousHeading(), previous) + Section(NewHeading(), new_)
                                         + Section(TimelineHeading(), timeline));
            && HighlightLines(lines) == kept
            && TimelineLines(lines, false) == Indented(timeline)
  {
    HeadingsKept();
    HeadingTitle();
    HeadingClean();
    hide Clean, AllClean, IsHeading, Title, TimelineHeading, PreviousHeading, NewHeading, Section, Kept, AllKept,
         HighlightLines, TimelineLines, Indented;
    var a, b := Section(PreviousHeading(), previous), Section(NewHeading(), new_);
    var c := Section(TimelineHeading(), timeline);
    SectionKept(PreviousHeading(), previous);
    SectionKept(NewHeading(), new_);
    AllKeptConcat(a, b);
    Regrouped(Title(), a, b, c);
    HeadingSkipped("Summary:", [Title()] + ((a + b) + c));
    HeadingSkipped(Title(), (a + b) + c);
    KeptLines(a + b, c);
    TimelineOnly(timeline);
    Unit(a + b);
  }

  lemma Regrouped<T>(t: T, a: seq<T>, b: seq<T>, c: seq<T>)
    ensures [t] + a + b + c == [t] + ((a + b) + c)
  {
  }

  lemma Unit<T>(a: seq<T>)
    ensures a + [] == a
  {
  }

  // ----- Merging

  /** No extracted line holds an opening analysis tag or a closing summary tag. */
  predicate MergeReady(existing: string, new_: string) {
    && AllTagFree(Highlights(existing))
    && NewReady(new_)
  }

  predicate NewReady(new_: string) {
    AllTagFree(Highlights(Format(new_))) && AllTagFree(Timeline(Format(new_)))
  }

  lemma IndentedTagFree(line: string)
    requires TagFree(line)
    ensures TagFree("  " + line)
  {
    IndentedLacks(line, AnalysisOpen());
    IndentedLacks(line, SummaryClose());
  }

  lemma IndentedLacks(line: string, tag: string)
    requires tag != "" && tag[0] != ' ' && !Contains(line, tag)
    ensures !Contains("  " + line, tag)
  {
    var s := "  " + line;
    forall j: nat ensures !OccursAt(s, tag, j) {
      if j < 2 && j + |tag| <= |s| {
        assert s[j..j + |tag|][0] == ' ';
      } else if j >= 2 {
        OccursInSuffix(s, 2, tag, j - 2);
        assert s[2..] == line;
      }
    }
    assert Find(s, tag).None?;
  }

  lemma SectionRows(heading: string, lines: seq<string>)
    requires Clean(heading) && TagFree(heading) && AllClean(lines) && AllTagFree(lines)
    ensures AllClean(Section(heading, lines)) && AllTagFree(Section(heading, lines))
  {
    hide Clean, TagFree;
    var rows := Section(heading, lines);
    forall i | 0 <= i < |rows| ensures Clean(rows[i]) && TagFree(rows[i]) {
      if i > 0 {
        assert Clean(lines[i - 1]) && TagFree(lines[i - 1]);
        IndentedClean(lines[i - 1]);
        IndentedTagFree(lines[i - 1]);
      }
    }
  }

  lemma RowsConcat(a: seq<string>, b: seq<string>)
    requires AllClean(a) && AllTagFree(a) && AllClean(b) && AllTagFree(b)
    ensures AllClean(a + b) && AllTagFree(a + b)
  {
    hide Clean, TagFree;
  }

  lemma TitleRow()
    ensures Clean(Title()) && TagFree(Title()) && !IsWhitespace(Title()[0])
  {
    HeadingTitle();
    WrappersTagFree();
  }

  lemma MergedBodyRows(existing: string, new_: string)
    requires MergeReady(existing, new_)
    ensures MergedRows(MergedBody(existing, new_))
  {
    hide Clean, TagFree, AllClean, AllTagFree, Format, Highlights, Timeline, Section, Title, Kept,
         PreviousHeading, NewHeading, TimelineHeading;
    var formatted := Format(new_);
    ExtractedClean(existing);
    ExtractedClean(formatted);
    WrappersTagFree();
    HeadingsKept();
    KeptIsClean(PreviousHeading());
    KeptIsClean(NewHeading());
    SectionRows(PreviousHeading(), Highlights(existing));
    SectionRows(NewHeading(), Highlights(formatted));
    SectionRows(TimelineHeading(), Timeline(formatted));
    TitleRow();
    OneRow(Title());
    var a, b, c := Section(PreviousHeading(), Highlights(existing)), Section(NewHeading(), Highlights(formatted)),
                   Section(TimelineHeading(), Timeline(formatted));
    RowsConcat([Title()], a);
    RowsConcat([Title()] + a, b);
    RowsConcat([Title()] + a + b, c);
    assert ([Title()] + a + b + c)[0] == Title();
  }

  lemma KeptIsClean(line: string)
    requires Kept(line)
    ensures Clean(line)
  {
  }

  lemma OneRow(row: string)
    requires Clean(row) && TagFree(row)
    ensures AllClean([row]) && AllTagFree([row])
  {
    hide Clean, TagFree;
  }

  /** Merging, read back: every earlier highlight under its heading and indented, then the new ones, and
      the new timeline indented. Formatting the merged text once or twice makes no difference. */
  lemma MergeReadsBack(existing: string, new_: string)
    requires MergeReady(existing, new_)
    ensures var merged := Merge(Some(existing), new_);
            var formatted := Format(new_);
            && Format(Format(merged)) == Format(merged)
            && Highlights(merged) ==
                 Section(PreviousHeading(), Highlights(existing)) + Section(NewHeading(), Highlights(formatted))
            && Timeline(merged) == Indented(Timeline(formatted))
            && Highlights(Format(merged)) == Highlights(merged)
  {
    MergedBodyRows(existing, new_);
    var body := MergedBody(existing, new_);
    assert Merge(Some(existing), new_) == Wrapped(body);
    hide Merge, MergeReady, Format, Section, Title, PreviousHeading, NewHeading, TimelineHeading, Wrapped, MergedRows,
         Lines, HighlightLines, TimelineLines, Rows.Join, Indented, AllClean;
    var formatted := Format(new_);
    FormatWrapped(body);
    FormatAgain(body);
    LinesOfJoin(["Summary:"] + body);
    ExtractedClean(existing);
    ExtractedClean(formatted);
    MergedLines(Highlights(existing), Highlights(formatted), Timeline(formatted));
  }

  // ----- The merged text holds no marker

  predicate StartsCont(s: string) {
    |s| >= 4 && s[0] == 'C' && s[1] == 'o' && s[2] == 'n' && s[3] == 't'
  }

  /** No blank row, and no row that begins like the resume marker. */
  predicate PlainRow(row: string) {
    Clean(row) && !StartsCont(row)
  }

  predicate AllPlainRows(rows: seq<string>) {
    forall i :: 0 <= i < |rows| ==> PlainRow(rows[i])
  }

  lemma {:induction false} JoinedPlain(rows: seq<string>)
    requires rows != [] && AllPlainRows(rows)
    ensures var s := Rows.Join(rows);
            && s != "" && s[0] != '\n' && !StartsCont(s)
            && forall i :: 0 <= i < |s| && s[i] == '\n' ==> i + 1 < |s| && s[i + 1] != '\n' && !StartsCont(s[i + 1..])
    decreases |rows|
  {
    assert PlainRow(rows[0]);
    assert rows[0][0] != '\n';
    if |rows| > 1 {
      JoinedPlain(rows[1..]);
      var s, rest, n := Rows.Join(rows), Rows.Join(rows[1..]), |rows[0]|;
      hide Rows.Join, AllPlainRows;
      assert s == rows[0] + "\n" + rest by { JoinTwo(rows); }
      assert forall i :: 0 <= i < n ==> s[i] == rows[0][i] && s[i] != '\n';
      assert s[n] == '\n';
      forall i | 0 <= i < |s| && s[i] == '\n' ensures i + 1 < |s| && s[i + 1] != '\n' && !StartsCont(s[i + 1..]) {
        if i == n {
          assert s[i + 1..] == rest;
        } else {
          assert rest[i - n - 1] == '\n';
          assert s[i + 1..] == rest[i - n..];
        }
      }
    }
  }

  lemma JoinTwo(rows: seq<string>)
    requires |rows| > 1
    ensures Rows.Join(rows) == rows[0] + "\n" + Rows.Join(rows[1..])
  {
  }

  /** A marker that opens with a newline and goes on as no plain row begins. */
  predicate Foreign(marker: string) {
    |marker| > 4 && marker[0] == '\n' && (marker[1] == '\n' || StartsCont(marker[1..5]))
  }

  lemma MarkersForeign()
    ensures Foreign(NoteMarker()) && Foreign(ResumeMarker())
  {
    NoteForeign();
    ResumeTextFlat();
    hide ResumeText, NoteMarker;
    assert ResumeMarker()[1..5] == ResumeText()[..4] == "Cont";
  }

  lemma NoteForeign()
    ensures Foreign(NoteMarker())
  {
  }

  lemma ForeignAbsent(s: string, marker: string)
    requires Foreign(marker)
    requires forall i :: 0 <= i < |s| && s[i] == '\n' ==> i + 1 < |s| && s[i + 1] != '\n' && !StartsCont(s[i + 1..])
    ensures !Contains(s, marker)
  {
    forall j: nat ensures !OccursAt(s, marker, j) {
      if j + |marker| <= |s| && s[j] == '\n' {
        var o := s[j..j + |marker|];
        assert forall k :: 0 <= k < 5 ==> o[k] == s[j + k];
        var t := s[j + 1..];
        assert t[0] == o[1] && t[1] == o[2] && t[2] == o[3] && t[3] == o[4];
      }
    }
    assert Find(s, marker).None?;
  }

  lemma PlainHasNoMarkers(rows: seq<string>)
    requires rows != [] && AllPlainRows(rows)
    ensures !Contains(Rows.Join(rows), NoteMarker()) && !Contains(Rows.Join(rows), ResumeMarker())
  {
    hide Rows.Join, AllPlainRows, NoteMarker, ResumeMarker, Foreign, StartsCont, Contains;
    JoinedPlain(rows);
    MarkersForeign();
    ForeignAbsent(Rows.Join(rows), NoteMarker());
    ForeignAbsent(Rows.Join(rows), ResumeMarker());
  }

  lemma IndentedPlain(line: string)
    requires Clean(line)
    ensures PlainRow("  " + line)
  {
    hide Clean;
    IndentedClean(line);
  }

  lemma SectionPlain(heading: string, lines: seq<string>)
    requires PlainRow(heading) && AllClean(lines)
    ensures AllPlainRows(Section(heading, lines))
  {
    hide Clean, PlainRow;
    var rows := Section(heading, lines);
    forall i | 0 <= i < |rows| ensures PlainRow(rows[i]) {
      if i > 0 {
        assert Clean(lines[i - 1]);
        IndentedPlain(lines[i - 1]);
      }
    }
  }

  lemma HeadingsPlain()
    ensures PlainRow(PreviousHeading()) && PlainRow(NewHeading()) && PlainRow(TimelineHeading())
    ensures PlainRow(Title()) && PlainRow("Summary:")
  {
    HeadingsKept();
    HeadingTitle();
    HeadingClean();
    hide Clean;
  }

  lemma MergedRowsPlain(existing: string, new_: string)
    ensures AllPlainRows(["Summary:"] + MergedBody(existing, new_))
  {
    hide Clean, PlainRow, AllClean, Format, Highlights, Timeline, Section, Title, PreviousHeading, NewHeading,
         TimelineHeading;
    var formatted := Format(new_);
    HeadingsPlain();
    ExtractedClean(existing);
    ExtractedClean(formatted);
    SectionPlain(PreviousHeading(), Highlights(existing));
    SectionPlain(NewHeading(), Highlights(formatted));
    SectionPlain(TimelineHeading(), Timeline(formatted));
  }

  lemma MergedFormatHasNoMarkers(existing: string, new_: string)
    requires MergeReady(existing, new_)
    ensures var formatted := Format(Merge(Some(existing), new_));
            !Contains(formatted, NoteMarker()) && !Contains(formatted, ResumeMarker())
  {
    MergedBodyRows(existing, new_);
    var body := MergedBody(existing, new_);
    assert Merge(Some(existing), new_) == Wrapped(body);
    hide Merge, MergeReady, Format, Wrapped, MergedRows, AllPlainRows, MergedBody, Rows.Join, Contains, NoteMarker,
         ResumeMarker;
    FormatWrapped(body);
    MergedRowsPlain(existing, new_);
    PlainHasNoMarkers(["Summary:"] + body);
  }

  /** The continuation message of a merged summary always gives the summary back. */
  lemma MergedContinuationRecovers(existing: string, new_: string, suppressQuestions: bool, recentPreserved: bool)
    requires MergeReady(existing, new_)
    ensures var merged := Merge(Some(existing), new_);
            ExtractText(ContinuationText(merged, suppressQuestions, recentPreserved)) == Some(Format(merged))
  {
    hide Merge, MergeReady, Format, ExtractText, ContinuationText, Contains, NoteMarker, ResumeMarker;
    MergedFormatHasNoMarkers(existing, new_);
    ContinuationRecoversExactly(Merge(Some(existing), new_), suppressQuestions, recentPreserved);
  }

  // ----- Merging again and again

  /** The summary after merging each of `news` in turn, formatted each time as it is kept. */
  function MergeAll(existing: string, news: seq<string>): string
    decreases |news|
  {
    if news == [] then existing else MergeAll(Format(Merge(Some(existing), news[0])), news[1..])
  }

  function IndentedTimes(lines: seq<string>, n: nat): (r: seq<string>)
    ensures |r| == |lines|
    decreases n
  {
    if n == 0 then lines else IndentedTimes(Indented(lines), n - 1)
  }

  function Spaces(n: nat): string {
    if n == 0 then "" else " " + Spaces(n - 1)
  }

  lemma {:induction false} SpacesOutside(n: nat)
    ensures Spaces(n + 1) == Spaces(n) + " "
  {
    if n > 0 { SpacesOutside(n - 1); }
  }

  /** Indenting n times puts 2n spaces in front. */
  lemma {:induction false} IndentedTimesSpaces(lines: seq<string>, n: nat, i: nat)
    requires i < |lines|
    ensures IndentedTimes(lines, n)[i] == Spaces(2 * n) + lines[i]
    decreases n
  {
    if n > 0 {
      IndentedTimesSpaces(Indented(lines), n - 1, i);
      var k := 2 * (n - 1);
      SpacesOutside(k);
      SpacesOutside(k + 1);
      assert Spaces(2 * n) == Spaces(k) + " " + " ";
      assert Spaces(k) + ("  " + lines[i]) == Spaces(k) + " " + " " + lines[i];
    }
  }

  lemma HeadingsTagFree(lines: seq<string>, more: seq<string>)
    requires AllTagFree(lines) && AllTagFree(more)
    ensures AllTagFree(Section(PreviousHeading(), lines) + Section(NewHeading(), more))
  {
    hide TagFree, PreviousHeading, NewHeading, Clean;
    WrappersTagFree();
    var rows := Section(PreviousHeading(), lines) + Section(NewHeading(), more);
    forall l | 0 <= l < |lines| ensures TagFree("  " + lines[l]) { IndentedTagFree(lines[l]); }
    forall l | 0 <= l < |more| ensures TagFree("  " + more[l]) { IndentedTagFree(more[l]); }
  }

  /** `block` stands in `lines` from index `at`. */
  predicate BlockAt(lines: seq<string>, at: nat, block: seq<string>) {
    at + |block| <= |lines| && lines[at..at + |block|] == block
  }

  /** Every highlight survives every later merge: after m merges the block of highlights stands m
      headings down, in order, with 2m more spaces before each line. */
  lemma {:induction false} HighlightsSurvive(existing: string, news: seq<string>, at: nat, block: seq<string>)
    requires AllTagFree(Highlights(existing))
    requires forall i :: 0 <= i < |news| ==> NewReady(news[i])
    requires block != [] && BlockAt(Highlights(existing), at, block)
    ensures BlockAt(Highlights(MergeAll(existing, news)), at + |news|, IndentedTimes(block, |news|))
    decreases |news|
  {
    hide Highlights, Format, Merge, AllTagFree, Indented, NewReady, BlockAt;
    if news != [] {
      assert NewReady(news[0]);
      BlockSurvives(existing, news[0], at, block);
      var next := Format(Merge(Some(existing), news[0]));
      assert IndentedTimes(block, |news|) == IndentedTimes(Indented(block), |news| - 1);
      IndentedNotEmpty(block);
      HighlightsSurvive(next, news[1..], at + 1, Indented(block));
    }
  }

  lemma IndentedNotEmpty(block: seq<string>)
    requires block != []
    ensures Indented(block) != []
  {
  }

  lemma BlockSurvives(existing: string, new_: string, at: nat, block: seq<string>)
    requires AllTagFree(Highlights(existing)) && NewReady(new_)
    requires block != [] && BlockAt(Highlights(existing), at, block)
    ensures var after := Highlights(Format(Merge(Some(existing), new_)));
            AllTagFree(after) && BlockAt(after, at + 1, Indented(block))
  {
    hide Highlights, Timeline, Format, Merge, AllTagFree, Section, Indented, PreviousHeading, NewHeading, BlockAt;
    MergeReadsBack(existing, new_);
    var before, more := Highlights(existing), Highlights(Format(new_));
    HeadingsTagFree(before, more);
    BlockMoves(before, Section(NewHeading(), more), at, block);
  }

  lemma BlockMoves(lines: seq<string>, more: seq<string>, at: nat, block: seq<string>)
    requires block != [] && BlockAt(lines, at, block)
    ensures BlockAt(Section(PreviousHeading(), lines) + more, at + 1, Indented(block))
  {
    hide PreviousHeading;
    var rows := Section(PreviousHeading(), lines) + more;
    forall i | 0 <= i < |block| ensures rows[at + 1 + i] == Indented(block)[i] {
      assert lines[at..at + |block|][i] == lines[at + i];
    }
  }
}
