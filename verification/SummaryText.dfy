/** The text of compacted summaries: formatting, the continuation message wrapped around it and its
    recovery, and the merge of an earlier summary with a new one. */
module SummaryText {
  import opened Options
  import opened Strings
  import opened Search
  import Rows

  // ----- Fixed texts

  function Preamble(): string { Preamble1() + (Preamble2() + (Preamble3() + (Preamble4() + (Preamble5() + "\n\n")))) }
  function Preamble1(): string { "This session is being continued from a " }
  function Preamble2(): string { "previous conversation that ran out " }
  function Preamble3(): string { "of context. The summary below " }
  function Preamble4(): string { "covers the earlier " }
  function Preamble5(): string { "portion of the conversation." }

  /** What announces that recent messages follow. */
  function NoteMarker(): string { "\n\n" + NoteText() }
  function NoteText(): string { NoteWords() + "." }
  function NoteWords(): string { "Recent messages " + "are preserved verbatim" }

  /** What asks for the conversation to go on without questions. */
  function ResumeMarker(): string { "\n" + ResumeText() }
  function ResumeText(): string {
    ResumeText1() + (ResumeText2() + (ResumeText3() + (ResumeText4() + (ResumeText5() + ResumeText6()))))
  }
  function ResumeText1(): string { ResumeWords() + " it " }
  function ResumeWords(): string { "Continue the " + "conversation from where" }
  function ResumeText2(): string { "left off without asking the user any " }
  function ResumeText3(): string { "further questions. Resume directly " }
  function ResumeText4(): string { "\U{2014} do not acknowledge the summary, " }
  function ResumeText5(): string { "do not recap what was happening, " }
  function ResumeText6(): string { "and do not preface with continuation text." }

  function SummaryOpen(): string { "<summary>" }
  function SummaryClose(): string { "</summary>" }
  function AnalysisOpen(): string { "<analysis>" }
  function Title(): string { "Conversation summary:" }
  function TimelineHeading(): string { "- Key timeline:" }
  function PreviousHeading(): string { "- Previously compacted context:" }
  function NewHeading(): string { "- Newly compacted context:" }

  // ----- Formatting

  function StripTagBlock(content: string, tag: string): string {
    var start, end := Find(content, "<" + tag + ">"), Find(content, "</" + tag + ">");
    if start.Some? && end.Some? then content[..start.value] + content[end.value + |tag| + 3..] else content
  }

  function ExtractTagBlock(content: string, tag: string): Option<string> {
    match Find(content, "<" + tag + ">")
    case None => None
    case Some(i) =>
      var rest := content[i + |tag| + 2..];
      match Find(rest, "</" + tag + ">")
      case None => None
      case Some(j) => Some(rest[..j])
  }

  /** `str::replace`: every occurrence, from the left, without overlaps. */
  function ReplaceAll(s: string, pat: string, replacement: string): string
    requires pat != ""
    decreases |s|
  {
    match Find(s, pat)
    case None => s
    case Some(i) => s[..i] + replacement + ReplaceAll(s[i + |pat|..], pat, replacement)
  }

  predicate IsBlank(line: string) {
    Trim(line) == ""
  }

  /** Lines again ended by newlines, each run of blank ones reduced to its first. */
  function Collapsed(lines: seq<string>, lastBlank: bool): string {
    if lines == [] then ""
    else if IsBlank(lines[0]) && lastBlank then Collapsed(lines[1..], true)
    else lines[0] + "\n" + Collapsed(lines[1..], IsBlank(lines[0]))
  }

  function Unwrapped(text: string): string {
    match ExtractTagBlock(text, "summary")
    case None => text
    case Some(content) => ReplaceAll(text, "<summary>" + content + "</summary>", "Summary:\n" + Trim(content))
  }

  function Format(summary: string): string {
    Trim(Collapsed(Lines(Unwrapped(StripTagBlock(summary, "analysis"))), false))
  }

  method CollapseBlankLines(content: string) returns (result: string)
    ensures result == Collapsed(Lines(content), false)
  {
    hide IsBlank, Lines;
    result := "";
    var lastBlank := false;
    var lines := Lines(content);
    for i := 0 to |lines|
      invariant result + Collapsed(lines[i..], lastBlank) == Collapsed(lines, false)
    {
      var isBlank := IsBlank(lines[i]);
      assert lines[i..][1..] == lines[i + 1..];
      if isBlank && lastBlank {
        continue;
      }
      Regroup(result, lines[i], Collapsed(lines[i + 1..], isBlank));
      result := result + lines[i];
      result := result + "\n";
      lastBlank := isBlank;
    }
  }

  lemma Regroup(before: string, line: string, rest: string)
    ensures before + line + "\n" + rest == before + (line + "\n" + rest)
  {
  }

  // ----- Highlights and timeline

  predicate IsHeading(trimmed: string) {
    trimmed == "" || trimmed == "Summary:" || trimmed == Title()
  }

  /** The trimmed lines before the timeline, headings and blank lines apart. */
  function HighlightLines(lines: seq<string>): seq<string> {
    if lines == [] then []
    else
      var trimmed := TrimEnd(lines[0]);
      if trimmed == TimelineHeading() then []
      else if IsHeading(trimmed) then HighlightLines(lines[1..])
      else [trimmed] + HighlightLines(lines[1..])
  }

  /** The trimmed lines after the timeline heading, up to a blank one. */
  function TimelineLines(lines: seq<string>, inTimeline: bool): seq<string> {
    if lines == [] then []
    else
      var trimmed := TrimEnd(lines[0]);
      if trimmed == TimelineHeading() then TimelineLines(lines[1..], true)
      else if !inTimeline then TimelineLines(lines[1..], false)
      else if trimmed == "" then []
      else [trimmed] + TimelineLines(lines[1..], true)
  }

  function Highlights(summary: string): seq<string> {
    HighlightLines(Lines(Format(summary)))
  }

  function Timeline(summary: string): seq<string> {
    TimelineLines(Lines(Format(summary)), false)
  }

  lemma HighlightStep(lines: seq<string>, i: nat)
    requires i < |lines|
    ensures var trimmed, rest := TrimEnd(lines[i]), HighlightLines(lines[i + 1..]);
            HighlightLines(lines[i..]) ==
              if IsHeading(trimmed) then rest
              else if trimmed == TimelineHeading() then []
              else [trimmed] + rest
  {
    hide TrimEnd;
    assert lines[i..][1..] == lines[i + 1..];
  }

  method ExtractSummaryHighlights(summary: string) returns (highlights: seq<string>)
    ensures highlights == Highlights(summary)
  {
    hide HighlightLines, TrimEnd, Lines, Format, TimelineHeading, Title;
    highlights := [];
    var inTimeline := false;
    var lines := Lines(Format(summary));
    assert lines[0..] == lines;
    for i := 0 to |lines|
      invariant if inTimeline then highlights == HighlightLines(lines)
                else highlights + HighlightLines(lines[i..]) == HighlightLines(lines)
    {
      HighlightStep(lines, i);
      var trimmed := TrimEnd(lines[i]);
      if trimmed == "" || trimmed == "Summary:" || trimmed == Title() {
        continue;
      }
      if trimmed == TimelineHeading() {
        inTimeline := true;
        continue;
      }
      if inTimeline {
        continue;
      }
      highlights := highlights + [trimmed];
    }
    NoHighlights(lines[|lines|..]);
  }

  lemma NoHighlights(lines: seq<string>)
    requires lines == []
    ensures HighlightLines(lines) == []
  {
  }

  method ExtractSummaryTimeline(summary: string) returns (timeline: seq<string>)
    ensures timeline == Timeline(summary)
  {
    timeline := [];
    var inTimeline := false;
    var lines := Lines(Format(summary));
    for i := 0 to |lines|
      invariant timeline + TimelineLines(lines[i..], inTimeline) == TimelineLines(lines, false)
    {
      assert lines[i..][1..] == lines[i + 1..];
      var trimmed := TrimEnd(lines[i]);
      if trimmed == TimelineHeading() {
        inTimeline := true;
        continue;
      }
      if !inTimeline {
        continue;
      }
      if trimmed == "" {
        break;
      }
      timeline := timeline + [trimmed];
    }
  }

  // ----- Merging

  function Indented(lines: seq<string>): seq<string> {
    seq(|lines|, i requires 0 <= i < |lines| => "  " + lines[i])
  }

  /** A heading over indented lines, or nothing when there are none. */
  function Section(heading: string, lines: seq<string>): seq<string> {
    if lines == [] then [] else [heading] + Indented(lines)
  }

  function MergedBody(existing: string, new_: string): seq<string> {
    var formatted := Format(new_);
    [Title()]
    + Section(PreviousHeading(), Highlights(existing))
    + Section(NewHeading(), Highlights(formatted))
    + Section(TimelineHeading(), Timeline(formatted))
  }

  function Merge(existing: Option<string>, new_: string): string {
    if existing.None? then new_
    else Rows.Join([SummaryOpen()] + MergedBody(existing.value, new_) + [SummaryClose()])
  }

  /** `if !section.is_empty() { push heading; extend with indented lines }`. */
  method PushSection(lines: seq<string>, heading: string, section: seq<string>) returns (longer: seq<string>)
    ensures longer == lines + Section(heading, section)
  {
    longer := lines;
    if section != [] {
      longer := longer + [heading];
      longer := longer + Indented(section);
    }
  }

  lemma Assembled<T>(first: T, second: T, a: seq<T>, b: seq<T>, c: seq<T>, last: T)
    ensures [first, second] + a + b + c + [last] == [first] + ([second] + a + b + c) + [last]
  {
  }

  method MergeCompactSummaries(existing: Option<string>, new_: string) returns (merged: string)
    ensures merged == Merge(existing, new_)
  {
    if existing.None? {
      return new_;
    }
    hide Format, Highlights, Timeline, Rows.Join, Section, PreviousHeading, NewHeading, TimelineHeading,
         Title, SummaryOpen, SummaryClose;
    var previousHighlights := ExtractSummaryHighlights(existing.value);
    var newFormatted := Format(new_);
    var newHighlights := ExtractSummaryHighlights(newFormatted);
    var newTimeline := ExtractSummaryTimeline(newFormatted);
    var lines := [SummaryOpen(), Title()];
    lines := PushSection(lines, PreviousHeading(), previousHighlights);
    lines := PushSection(lines, NewHeading(), newHighlights);
    lines := PushSection(lines, TimelineHeading(), newTimeline);
    lines := lines + [SummaryClose()];
    Assembled(SummaryOpen(), Title(), Section(PreviousHeading(), previousHighlights),
              Section(NewHeading(), newHighlights), Section(TimelineHeading(), newTimeline), SummaryClose());
    return Rows.Join(lines);
  }

  // ----- The continuation message

  function ContinuationText(summary: string, suppressQuestions: bool, recentPreserved: bool): string {
    Preamble() + Format(summary)
    + (if recentPreserved then NoteMarker() else "")
    + (if suppressQuestions then ResumeMarker() else "")
  }

  /** The text before the first occurrence of a marker. */
  function CutAt(s: string, marker: string): string {
    match Find(s, marker)
    case None => s
    case Some(i) => s[..i]
  }

  function ExtractText(text: string): Option<string> {
    match StripPrefix(text, Preamble())
    case None => None
    case Some(summary) => Some(Trim(CutAt(CutAt(summary, NoteMarker()), ResumeMarker())))
  }
}
