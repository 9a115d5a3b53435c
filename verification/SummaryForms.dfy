/** What formatting drops, replaces and keeps, said on the pieces a summary is put together from. */
module SummaryForms {
  import opened Options
  import opened Search
  import opened Strings
  import opened Summarizer
  import opened SummaryLaws
  import opened SummaryMerge
  import opened SummaryText
  import Rows

  // ----- Tagged blocks

  /** A pattern that opens with an angle bracket is first found after text that has none. */
  lemma FirstAngle(y: string, pat: string, rest: string)
    requires '<' !in y && pat != "" && pat[0] == '<'
    ensures Find(y + (pat + rest), pat) == Some(|y|)
  {
    var s := y + (pat + rest);
    assert s[|y|..|y| + |pat|] == pat;
    forall j | 0 <= j < |y| ensures !OccursAt(s, pat, j) {
      NotHere(s, pat, j);
    }
    FindIs(s, pat, |y|);
  }

  /** Where a pattern occurs, the text has its characters. */
  lemma SameCharacter(s: string, pat: string, j: nat, k: nat)
    requires k < |pat|
    ensures OccursAt(s, pat, j) ==> j + k < |s| && s[j + k] == pat[k]
  {
    if OccursAt(s, pat, j) {
      assert s[j + k] == s[j..j + |pat|][k];
    }
  }

  lemma NotHere(s: string, pat: string, j: nat)
    requires pat != "" && j < |s| && s[j] != pat[0]
    ensures !OccursAt(s, pat, j)
  {
    SameCharacter(s, pat, j, 0);
  }

  lemma NoAngleNoTag(y: string, pat: string)
    requires '<' !in y && pat != "" && pat[0] == '<'
    ensures Find(y, pat) == None
  {
    forall j: nat | j < |y| ensures !OccursAt(y, pat, j) {
      NotHere(y, pat, j);
    }
  }

  function Block(tag: string, x: string): string {
    "<" + tag + ">" + (x + ("</" + tag + ">"))
  }

  lemma SummaryBlock()
    ensures forall x: string :: Block("summary", x) == "<summary>" + x + "</summary>"
  {
    forall x: string ensures Block("summary", x) == "<summary>" + x + "</summary>" {
      assert "<" + "summary" + ">" == "<summary>" && "</" + "summary" + ">" == "</summary>";
    }
  }

  /** The closing tag of a block is found after its content, not inside the opening tag. */
  lemma CloseAfterContent(a: string, tag: string, x: string, b: string)
    requires '<' !in a && '<' !in x && '<' !in tag && (tag == "" || tag[0] != '/')
    ensures Find(a + (Block(tag, x) + b), "</" + tag + ">") == Some(|a| + (|tag| + 2) + |x|)
  {
    var open, close := "<" + tag + ">", "</" + tag + ">";
    var s := a + (Block(tag, x) + b);
    var at := |a| + |open| + |x|;
    assert s == a + open + x + close + b;
    assert s[at..at + |close|] == close;
    forall j | 0 <= j < at ensures !OccursAt(s, close, j) {
      if j == |a| {
        assert s[j + 1] == open[1];
        SameCharacter(s, close, j, 1);
      } else {
        assert s[j] == if j < |a| then a[j] else if j < |a| + |open| then open[j - |a|] else x[j - |a| - |open|];
        NotHere(s, close, j);
      }
    }
    FindIs(s, close, at);
  }

  /** A block is dropped with its tags, and the text around it joins up. */
  lemma BlockIsDropped(a: string, tag: string, x: string, b: string)
    requires '<' !in a && '<' !in x && '<' !in tag && (tag == "" || tag[0] != '/')
    ensures StripTagBlock(a + (Block(tag, x) + b), tag) == a + b
  {
    hide *;
    var open, close := "<" + tag + ">", "</" + tag + ">";
    TagLengths(tag);
    CloseAfterContent(a, tag, x, b);
    BlockParts(tag, x, b);
    FirstAngle(a, open, x + (close + b));
    AroundBlock(a, open, x, close, b);
    StripIs(a + (open + (x + (close + b))), tag, |a|, |a| + |open| + |x|);
  }

  lemma TagLengths(tag: string)
    ensures |"<" + tag + ">"| == |tag| + 2 && |"</" + tag + ">"| == |tag| + 3
    ensures ("<" + tag + ">")[0] == '<' && "<" + tag + ">" != ""
  {
  }

  lemma StripIs(s: string, tag: string, start: nat, end: nat)
    requires Find(s, "<" + tag + ">") == Some(start) && Find(s, "</" + tag + ">") == Some(end)
    ensures start <= |s| && end + |tag| + 3 <= |s|
    ensures StripTagBlock(s, tag) == s[..start] + s[end + |tag| + 3..]
  {
    hide FindFrom;
    assert OccursAt(s, "<" + tag + ">", start) && OccursAt(s, "</" + tag + ">", end);
  }

  lemma AroundBlock(a: string, open: string, x: string, close: string, b: string)
    ensures var s := a + (open + (x + (close + b)));
            |s| == |a| + |open| + |x| + |close| + |b| && s[..|a|] == a && s[|a| + |open| + |x| + |close|..] == b
  {
    AfterBoth(a, open, x + (close + b));
    AfterBoth(x, close, b);
    var s := a + (open + (x + (close + b)));
    assert s[|a| + |open| + |x| + |close|..] == s[|a| + |open|..][|x| + |close|..];
  }

  lemma BlockParts(tag: string, x: string, later: string)
    ensures Block(tag, x) + later == "<" + tag + ">" + (x + ("</" + tag + ">" + later))
  {
  }

  lemma AfterBoth(a: string, b: string, rest: string)
    ensures (a + (b + rest))[|a| + |b|..] == rest
  {
  }

  /** The analysis of a summary leaves no trace when it is formatted. */
  lemma AnalysisIsDropped(a: string, x: string, b: string)
    requires '<' !in a && '<' !in x && !Contains(a + b, AnalysisOpen())
    ensures Format(a + (Block("analysis", x) + b)) == Format(a + b)
  {
    assert "<" + "analysis" + ">" == AnalysisOpen();
    BlockIsDropped(a, "analysis", x, b);
    hide Find, Unwrapped, Collapsed, Lines, Trim, Block, AnalysisOpen;
  }

  /** Every copy of a pattern that opens with an angle bracket is replaced. */
  lemma {:induction false} ReplacedEverywhere(texts: seq<string>, pat: string, replacement: string)
    requires texts != [] && (forall i | 0 <= i < |texts| :: '<' !in texts[i]) && pat != "" && pat[0] == '<'
    ensures ReplaceAll(JoinWith(texts, pat), pat, replacement) == JoinWith(texts, replacement)
  {
    if |texts| == 1 {
      NoAngleNoTag(texts[0], pat);
    } else {
      var y, rest := texts[0], JoinWith(texts[1..], pat);
      ReplacedEverywhere(texts[1..], pat, replacement);
      FirstAngle(y, pat, rest);
      var s := y + (pat + rest);
      assert JoinWith(texts, pat) == s;
      assert s[..|y|] == y && s[|y| + |pat|..] == rest;
      hide Find, JoinWith;
      assert ReplaceAll(s, pat, replacement) == y + replacement + ReplaceAll(rest, pat, replacement);
    }
  }

  lemma JoinTwoMore(texts: seq<string>, separator: string)
    requires |texts| >= 2
    ensures JoinWith(texts, separator) == texts[0] + (separator + JoinWith(texts[1..], separator))
  {
  }

  /** The content of the first block. */
  lemma FirstContent(y: string, tag: string, x: string, later: string)
    requires '<' !in y && '<' !in x
    ensures ExtractTagBlock(y + (Block(tag, x) + later), tag) == Some(x)
  {
    hide Find, Block;
    var open, close := "<" + tag + ">", "</" + tag + ">";
    var rest := x + (close + later);
    BlockParts(tag, x, later);
    FirstAngle(y, open, rest);
    FirstAngle(x, close, later);
    AfterBoth(y, open, rest);
    assert rest[..|x|] == x;
  }

  /** Every copy of the summary block gives way to its content under a heading. */
  lemma BlocksAreUnwrapped(texts: seq<string>, x: string)
    requires |texts| >= 2 && (forall i | 0 <= i < |texts| :: '<' !in texts[i]) && '<' !in x
    ensures Unwrapped(JoinWith(texts, Block("summary", x))) == JoinWith(texts, "Summary:\n" + Trim(x))
  {
    var block := Block("summary", x);
    SummaryBlock();
    ReplacedEverywhere(texts, block, "Summary:\n" + Trim(x));
    JoinTwoMore(texts, block);
    FirstContent(texts[0], "summary", x, JoinWith(texts[1..], block));
    hide JoinWith, Trim, Find, ReplaceAll, ExtractTagBlock, Block;
  }

  // ----- Blank lines

  /** A blank line right after a blank line. */
  predicate Repeats(lines: seq<string>, i: nat) {
    0 < i < |lines| && IsBlank(lines[i]) && IsBlank(lines[i - 1])
  }

  /** The lines from `i` on that do not repeat a blank one. */
  function Distinct(lines: seq<string>, i: nat): seq<string>
    requires i <= |lines|
    decreases |lines| - i
  {
    if i == |lines| then [] else (if Repeats(lines, i) then [] else [lines[i]]) + Distinct(lines, i + 1)
  }

  function Ended(lines: seq<string>): string {
    if lines == [] then "" else lines[0] + "\n" + Ended(lines[1..])
  }

  lemma EndedFirst(line: string, rest: seq<string>)
    ensures Ended([line] + rest) == line + "\n" + Ended(rest) && Ended([] + rest) == Ended(rest)
  {
    assert ([line] + rest)[1..] == rest && [] + rest == rest;
  }

  /** Collapsing leaves out exactly the blank lines that follow a blank line. */
  lemma {:induction false} CollapsedFrom(lines: seq<string>, i: nat)
    requires i <= |lines|
    ensures Collapsed(lines[i..], i > 0 && IsBlank(lines[i - 1])) == Ended(Distinct(lines, i))
    decreases |lines| - i
  {
    hide IsBlank, Ended;
    if i < |lines| {
      CollapsedFrom(lines, i + 1);
      assert lines[i..][0] == lines[i] && lines[i..][1..] == lines[i + 1..];
      EndedFirst(lines[i], Distinct(lines, i + 1));
    } else {
      assert lines[i..] == [];
      EndedNone();
    }
  }

  lemma EndedNone()
    ensures Ended([]) == ""
  {
  }

  lemma CollapsedExactly(lines: seq<string>)
    ensures Collapsed(lines, false) == Ended(Distinct(lines, 0))
  {
    CollapsedFrom(lines, 0);
    assert lines[0..] == lines;
  }

  /** Two blank lines in a row are never kept, and nothing else is lost. */
  lemma {:induction false} DistinctBlanks(lines: seq<string>, i: nat)
    requires i <= |lines|
    ensures var kept := Distinct(lines, i);
            && (forall k | 0 < k < |kept| :: !(IsBlank(kept[k - 1]) && IsBlank(kept[k])))
            && (kept != [] && IsBlank(kept[0]) ==> i < |lines| && kept[0] == lines[i] && !Repeats(lines, i))
    decreases |lines| - i
  {
    hide IsBlank;
    if i < |lines| {
      DistinctBlanks(lines, i + 1);
    }
  }

  lemma {:induction false} NothingRepeats(lines: seq<string>, i: nat)
    requires i <= |lines| && forall k | i <= k < |lines| :: !Repeats(lines, k)
    ensures Distinct(lines, i) == lines[i..]
    decreases |lines| - i
  {
    hide Repeats;
    if i < |lines| {
      NothingRepeats(lines, i + 1);
      assert lines[i..] == [lines[i]] + lines[i + 1..];
    }
  }

  // ----- Reading a summary again

  predicate StartsTimeline(line: string) {
    TrimEnd(line) == "- Key timeline:"
  }

  predicate NoTimeline(lines: seq<string>) {
    forall i | 0 <= i < |lines| :: !StartsTimeline(lines[i])
  }

  /** The highlights of two stretches of lines add up, as long as the first has no timeline. */
  lemma {:induction false} HighlightsAddUp(a: seq<string>, b: seq<string>)
    requires NoTimeline(a)
    ensures HighlightLines(a + b) == HighlightLines(a) + HighlightLines(b)
  {
    hide IsHeading, TrimEnd;
    if a == [] {
      assert a + b == b;
    } else {
      assert (a + b)[1..] == a[1..] + b && !StartsTimeline(a[0]);
      HighlightsAddUp(a[1..], b);
    }
  }

  /** A line is a highlight without the white space at its end, unless nothing or a title is left of it; from the
      timeline on there are none. */
  lemma OneHighlight(line: string, rest: seq<string>)
    ensures var trimmed := TrimEnd(line);
            && (!StartsTimeline(line) ==>
                  HighlightLines([line]) ==
                    if trimmed in ["", "Summary:", "Conversation summary:"] then [] else [trimmed])
            && (StartsTimeline(line) ==> HighlightLines([line] + rest) == [])
  {
    hide TrimEnd;
    assert [line][1..] == [] && ([line] + rest)[1..] == rest;
  }

  predicate TimelineEntries(lines: seq<string>) {
    NoTimeline(lines) && forall i | 0 <= i < |lines| :: TrimEnd(lines[i]) != ""
  }

  function EndsTrimmed(lines: seq<string>): seq<string> {
    seq(|lines|, i requires 0 <= i < |lines| => TrimEnd(lines[i]))
  }

  /** The timeline is what stands between its heading and the next blank line, or the end. */
  lemma TimelineIsBetween(before: seq<string>, heading: string, entries: seq<string>, blank: string, after: seq<string>)
    requires NoTimeline(before) && StartsTimeline(heading) && TimelineEntries(entries) && TrimEnd(blank) == ""
    ensures TimelineLines(before, false) == []
    ensures TimelineLines(before + ([heading] + entries), false) == EndsTrimmed(entries)
    ensures TimelineLines(before + ([heading] + (entries + ([blank] + after))), false) == EndsTrimmed(entries)
  {
    hide TimelineLines, TrimEnd;
    BeforeTimeline(before, []);
    BeforeTimeline(before, [heading] + entries);
    BeforeTimeline(before, [heading] + (entries + ([blank] + after)));
    AtTimeline(heading, entries);
    AtTimeline(heading, entries + ([blank] + after));
    InTimeline(entries, []);
    InTimeline(entries, [blank] + after);
    AfterTimeline(blank, after);
    assert before + [] == before && entries + [] == entries && EndsTrimmed(entries) + [] == EndsTrimmed(entries);
  }

  lemma {:induction false} BeforeTimeline(before: seq<string>, rest: seq<string>)
    requires NoTimeline(before)
    ensures TimelineLines(before + rest, false) == TimelineLines(rest, false)
    ensures TimelineLines([], false) == []
  {
    hide TrimEnd;
    if before == [] {
      assert before + rest == rest;
    } else {
      assert (before + rest)[1..] == before[1..] + rest && !StartsTimeline(before[0]);
      BeforeTimeline(before[1..], rest);
    }
  }

  lemma AtTimeline(heading: string, rest: seq<string>)
    requires StartsTimeline(heading)
    ensures TimelineLines([heading] + rest, false) == TimelineLines(rest, true)
  {
    assert ([heading] + rest)[1..] == rest;
  }

  lemma {:induction false} InTimeline(entries: seq<string>, rest: seq<string>)
    requires TimelineEntries(entries)
    ensures TimelineLines(entries + rest, true) == EndsTrimmed(entries) + TimelineLines(rest, true)
  {
    hide TrimEnd;
    if entries == [] {
      assert entries + rest == rest;
    } else {
      assert (entries + rest)[1..] == entries[1..] + rest && !StartsTimeline(entries[0]);
      InTimeline(entries[1..], rest);
      assert EndsTrimmed(entries) == [TrimEnd(entries[0])] + EndsTrimmed(entries[1..]);
    }
  }

  lemma AfterTimeline(blank: string, after: seq<string>)
    requires TrimEnd(blank) == ""
    ensures TimelineLines([blank] + after, true) == [] && TimelineLines([], true) == []
  {
  }

  // ----- The text a model answers with

  /** An analysis and then a summary of clean lines come out as the summary under its heading. */
  lemma AnswerFormatted(x: string, rows: seq<string>)
    requires '<' !in x && rows != [] && AllClean(rows) && !IsWhitespace(rows[0][0]) && '<' !in Rows.Join(rows)
    ensures Format(Block("analysis", x) + ("\n" + Block("summary", Rows.Join(rows))))
         == "Summary:\n" + Rows.Join(rows)
  {
    var text := Rows.Join(rows);
    JoinTight(rows);
    var tail := "\n" + Block("summary", text);
    assert "" + (Block("analysis", x) + tail) == Block("analysis", x) + tail;
    NoAnalysis(text);
    assert "" + tail == tail;
    AnalysisIsDropped("", x, tail);
    UnwrappedTail(text);
    Headed(rows);
    NoAnalysisNoStrip(tail);
    hide Format, Rows.Join, Block, Tight, AllClean, Unwrapped, StripTagBlock, Collapsed, Lines, Trim;
    FormatIs(tail);
  }

  lemma FormatIs(s: string)
    ensures Format(s) == Trim(Collapsed(Lines(Unwrapped(StripTagBlock(s, "analysis"))), false))
  {
  }

  lemma NoAnalysis(text: string)
    requires '<' !in text
    ensures !Contains("\n" + Block("summary", text), AnalysisOpen())
  {
    var s := "\n" + Block("summary", text);
    var open, close := "<summary>", "</summary>";
    assert s == "\n" + open + text + close;
    assert forall j | 10 <= j < 10 + |text| :: s[j] == text[j - 10];
    forall j | 0 <= j < |s| - 1 && s[j] == '<' ensures s[j + 1] != 'a' {
    }
    NoOpening(s);
  }

  lemma NoOpening(s: string)
    requires forall j | 0 <= j < |s| - 1 && s[j] == '<' :: s[j + 1] != 'a'
    ensures !Contains(s, AnalysisOpen())
  {
    forall j: nat ensures !OccursAt(s, AnalysisOpen(), j) {
      SameCharacter(s, AnalysisOpen(), j, 0);
      SameCharacter(s, AnalysisOpen(), j, 1);
    }
  }

  lemma NoAnalysisNoStrip(s: string)
    ensures !Contains(s, AnalysisOpen()) ==> StripTagBlock(s, "analysis") == s
  {
    assert "<" + "analysis" + ">" == AnalysisOpen();
  }

  lemma TwoParts(a: string, b: string, separator: string)
    ensures JoinWith([a, b], separator) == a + (separator + b)
  {
    assert [a, b][1..] == [b];
  }

  lemma UnwrappedTail(text: string)
    requires '<' !in text && Tight(text)
    ensures Unwrapped("\n" + Block("summary", text)) == "\nSummary:\n" + text
  {
    hide Unwrapped, Trim;
    var parts := ["\n", ""];
    TightTrims(text);
    BlocksAreUnwrapped(parts, text);
    hide Tight, Block;
    assert parts[1..] == [""];
    TwoParts("\n", "", Block("summary", text));
    TwoParts("\n", "", "Summary:\n" + text);
    assert "\n" + (Block("summary", text) + "") == "\n" + Block("summary", text);
    assert "\n" + ("Summary:\n" + text + "") == "\nSummary:\n" + text;
  }

  lemma HeadedText(rows: seq<string>)
    requires rows != []
    ensures Rows.Join([""] + (["Summary:"] + rows)) == "\nSummary:\n" + Rows.Join(rows)
    ensures Rows.Join(["Summary:"] + rows) == "Summary:\n" + Rows.Join(rows)
  {
    hide Rows.Join;
    Rows.JoinNext("Summary:", rows);
    Rows.JoinNext("", ["Summary:"] + rows);
    assert "Summary:" + ("\n" + Rows.Join(rows)) == "Summary:\n" + Rows.Join(rows);
    assert "" + ("\n" + ("Summary:\n" + Rows.Join(rows))) == "\nSummary:\n" + Rows.Join(rows);
  }

  lemma HeadedClean(rows: seq<string>)
    requires rows != [] && AllClean(rows)
    ensures AllClean(["Summary:"] + rows)
  {
    HeadingClean();
    hide Clean;
    var all := ["Summary:"] + rows;
    forall i | 0 <= i < |all| ensures Clean(all[i]) {
      if i > 0 { assert Clean(rows[i - 1]); }
    }
  }

  /** Clean rows after an empty one. */
  lemma LinesAfterEmpty(rows: seq<string>)
    requires rows != [] && AllClean(rows)
    ensures Lines(Rows.Join([""] + rows)) == [""] + rows
  {
    var all := [""] + rows;
    hide Rows.Join, Rows.Flat, Rows.Split, StripCR, StripAll;
    EmptyRow();
    forall r | 0 <= r < |all| ensures Rows.Flat(all[r]) && StripCR(all[r]) == all[r] && (r > 0 ==> all[r] != "") {
      if r > 0 {
        assert Clean(rows[r - 1]);
        CleanNotBlank(rows[r - 1]);
      }
    }
    hide AllClean, Clean;
    Rows.JoinRoundTrip(all);
    StripAllSame(all[..|all| - 1]);
    InitAndLast(all);
  }

  lemma EmptyRow()
    ensures Rows.Flat("") && StripCR("") == "" && IsBlank("")
  {
  }

  /** A blank line, the heading and clean rows. */
  lemma Headed(rows: seq<string>)
    requires rows != [] && AllClean(rows)
    ensures Trim(Collapsed(Lines("\nSummary:\n" + Rows.Join(rows)), false)) == "Summary:\n" + Rows.Join(rows)
  {
    var all := ["Summary:"] + rows;
    HeadedText(rows);
    HeadedClean(rows);
    LinesAfterEmpty(all);
    CollapsedClean(all);
    assert Clean(all[0]);
    CleanNotBlank(all[0]);
    EmptyRow();
    SummaryShows();
    JoinTight(all);
    TrimNewlinesAround(Rows.Join(all));
    hide *;
    CollapsedAfterEmpty(all);
    assert "\n" + (Rows.Join(all) + "\n") == "\n" + Rows.Join(all) + "\n";
  }

  lemma CollapsedAfterEmpty(rows: seq<string>)
    requires rows != [] && !IsBlank(rows[0]) && IsBlank("")
    ensures Collapsed([""] + rows, false) == "\n" + Collapsed(rows, false)
  {
    hide IsBlank;
    assert ([""] + rows)[1..] == rows;
    assert Collapsed([""] + rows, false) == "" + "\n" + Collapsed(rows, true);
    assert Collapsed(rows, true) == Collapsed(rows, false);
    assert "" + "\n" + Collapsed(rows, false) == "\n" + Collapsed(rows, false);
  }

  lemma SummaryShows()
    ensures !IsWhitespace('S')
  {
  }
}
