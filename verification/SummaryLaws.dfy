/** The continuation message gives its summary back, and merging keeps every earlier highlight. */
module SummaryLaws {
  import opened Options
  import opened Strings
  import opened Search
  import opened SummaryText
  import Rows

  // ----- Trimming

  /** Nothing to trim. */
  predicate Tight(s: string) {
    s == "" || (!IsWhitespace(s[0]) && !IsWhitespace(s[|s| - 1]))
  }

  lemma {:induction false} TrimEndOpen(s: string)
    ensures TrimEnd(s) <= s
    ensures TrimEnd(s) == "" || !IsWhitespace(TrimEnd(s)[|TrimEnd(s)| - 1])
  {
    if s != "" && IsWhitespace(s[|s| - 1]) { TrimEndOpen(s[..|s| - 1]); }
  }

  lemma {:induction false} TrimStartOpen(s: string)
    ensures TrimStart(s) == "" || !IsWhitespace(TrimStart(s)[0])
    ensures |TrimStart(s)| <= |s|
  {
    if s != "" && IsWhitespace(s[0]) { TrimStartOpen(s[1..]); }
  }

  lemma TrimIsTight(s: string)
    ensures Tight(Trim(s)) && |Trim(s)| <= |s|
  {
    hide IsWhitespace;
    TrimStartOpen(s);
    TrimEndOpen(TrimStart(s));
  }

  lemma TightTrims(s: string)
    requires Tight(s)
    ensures Trim(s) == s
  {
  }

  // ----- Markers

  /** Newlines only in a run at the front, as in both markers. */
  predicate LeadingNewlines(marker: string) {
    marker != "" && marker[0] == '\n'
    && forall i :: 0 < i < |marker| && marker[i] == '\n' ==> marker[i - 1] == '\n'
  }

  lemma FlatConcat(a: string, b: string)
    requires Rows.Flat(a) && Rows.Flat(b)
    ensures Rows.Flat(a + b)
  {
  }

  lemma NoteTextFlat()
    ensures Rows.Flat(NoteText()) && NoteText() != ""
  {
  }

  lemma ResumePartsFlat()
    ensures Rows.Flat(ResumeText1()) && Rows.Flat(ResumeText2()) && Rows.Flat(ResumeText3())
    ensures "Cont" <= ResumeText1()
  {
  }

  lemma ResumePartsFlatToo()
    ensures Rows.Flat(ResumeText4()) && Rows.Flat(ResumeText5()) && Rows.Flat(ResumeText6())
  {
  }

  lemma ResumeTextFlat()
    ensures Rows.Flat(ResumeText()) && "Cont" <= ResumeText()
  {
    hide Rows.Flat, ResumeText1, ResumeText2, ResumeText3, ResumeText4, ResumeText5, ResumeText6;
    ResumePartsFlat();
    ResumePartsFlatToo();
    var t5 := ResumeText5() + ResumeText6();
    var t4 := ResumeText4() + t5;
    var t3 := ResumeText3() + t4;
    var t2 := ResumeText2() + t3;
    FlatConcat(ResumeText5(), ResumeText6());
    FlatConcat(ResumeText4(), t5);
    FlatConcat(ResumeText3(), t4);
    FlatConcat(ResumeText2(), t3);
    FlatConcat(ResumeText1(), t2);
  }

  lemma MarkersLead()
    ensures LeadingNewlines(NoteMarker()) && LeadingNewlines(ResumeMarker())
  {
    hide ResumeText, NoteText;
    NoteTextFlat();
    ResumeTextFlat();
  }

  // ----- The continuation message

  /** No marker begins inside a trimmed text and runs on into what follows it. */
  lemma NoStraddle(f: string, tail: string, marker: string, j: nat)
    requires Tight(f) && LeadingNewlines(marker) && (tail == "" || tail[0] == '\n')
    requires j < |f| && !OccursAt(f, marker, j)
    ensures !OccursAt(f + tail, marker, j)
  {
    var s := f + tail;
    if j + |marker| <= |f| {
      OccursInPrefix(f, tail, marker, j);
    } else if j + |marker| <= |s| {
      var o := |f| - j;
      assert s[j..j + |marker|][o] == s[|f|] == '\n';
      assert s[j..j + |marker|][o - 1] == f[|f| - 1];
    }
  }

  lemma CutKeeps(f: string, marker: string, after: string)
    requires Tight(f) && LeadingNewlines(marker) && !Contains(f, marker)
    ensures CutAt(f, marker) == f && CutAt(f + (marker + after), marker) == f
  {
    var s := f + (marker + after);
    forall j | 0 <= j < |f| ensures !OccursAt(s, marker, j) {
      NoStraddle(f, marker + after, marker, j);
    }
    assert s[|f|..|f| + |marker|] == marker;
    FindIs(s, marker, |f|);
  }

  lemma CutShortens(f: string, marker: string, tail: string)
    requires Contains(f, marker) && marker != ""
    ensures CutAt(f + tail, marker) == CutAt(f, marker) && |CutAt(f, marker)| < |f|
  {
    FindStable(f, tail, marker);
    var i := Find(f, marker).value;
    assert (f + tail)[..i] == f[..i];
  }

  /** The resume marker has no blank line, so the note marker is not found in or across it. */
  lemma NoteNotInResume(f: string)
    requires Tight(f) && !Contains(f, NoteMarker())
    ensures CutAt(f + ResumeMarker(), NoteMarker()) == f + ResumeMarker()
  {
    var note, resume := NoteMarker(), ResumeMarker();
    var s := f + resume;
    MarkersLead();
    ResumeTextFlat();
    NoteTextFlat();
    hide NoteText, ResumeText, NoteMarker;
    NoteStart();
    forall j: nat ensures !OccursAt(s, note, j) {
      if j < |f| {
        NoStraddle(f, resume, note, j);
      } else if j + |note| <= |s| {
        assert s[j + 1] == resume[j + 1 - |f|] == ResumeText()[j - |f|] != '\n';
        assert s[j..j + |note|][1] == s[j + 1];
      }
    }
    assert Find(s, note).None?;
  }

  lemma NoteStart()
    ensures |NoteMarker()| > 2 && NoteMarker()[1] == '\n'
  {
    hide NoteText;
    NoteTextFlat();
  }

  lemma CutNeverGrows(s: string, marker: string)
    ensures |CutAt(s, marker)| <= |s|
  {
  }

  /** For all four flag combinations: unwrapping the continuation message gives the formatted summary
      back exactly when the summary contains neither marker. */
  lemma ContinuationRecoversExactly(summary: string, suppressQuestions: bool, recentPreserved: bool)
    ensures ExtractText(ContinuationText(summary, suppressQuestions, recentPreserved)) == Some(Format(summary)) <==>
              !Contains(Format(summary), NoteMarker()) && !Contains(Format(summary), ResumeMarker())
  {
    var f := Format(summary);
    FormatIsTight(summary);
    hide Preamble, NoteMarker, ResumeMarker, Format, Contains, CutAt, Trim, Tight;
    var note, resume := NoteMarker(), ResumeMarker();
    var tail := (if recentPreserved then note else "") + (if suppressQuestions then resume else "");
    assert ContinuationText(summary, suppressQuestions, recentPreserved) == Preamble() + (f + tail);
    PrefixStripped(Preamble(), f + tail);
    TextRecovers(f, suppressQuestions, recentPreserved);
  }

  lemma FormatIsTight(summary: string)
    ensures Tight(Format(summary))
  {
    hide Tight, Collapsed, Lines, Unwrapped, StripTagBlock, Trim;
    TrimIsTight(Collapsed(Lines(Unwrapped(StripTagBlock(summary, "analysis"))), false));
  }

  lemma PrefixStripped(p: string, s: string)
    ensures StripPrefix(p + s, p) == Some(s)
  {
  }

  lemma TextRecovers(f: string, suppressQuestions: bool, recentPreserved: bool)
    requires Tight(f)
    ensures var note, resume := NoteMarker(), ResumeMarker();
            var tail := (if recentPreserved then note else "") + (if suppressQuestions then resume else "");
            Trim(CutAt(CutAt(f + tail, note), resume)) == f <==> !Contains(f, note) && !Contains(f, resume)
  {
    hide NoteMarker, ResumeMarker, Contains, CutAt, Trim, Tight, LeadingNewlines;
    var note, resume := NoteMarker(), ResumeMarker();
    var tail := (if recentPreserved then note else "") + (if suppressQuestions then resume else "");
    MarkersLead();
    MarkersNotEmpty();
    var cut1 := CutAt(f + tail, note);
    var cut2 := CutAt(cut1, resume);
    TrimIsTight(cut2);
    CutNeverGrows(cut1, resume);
    if Contains(f, note) {
      CutShortens(f, note, tail);
    } else {
      NoNoteCut(f, suppressQuestions, recentPreserved);
      if Contains(f, resume) {
        CutShortens(f, resume, "");
        CutShortens(f, resume, resume);
        assert f + "" == f;
      } else {
        CutKeeps(f, resume, "");
        assert resume + "" == resume;
        TightTrims(f);
      }
    }
  }

  lemma MarkersNotEmpty()
    ensures NoteMarker() != "" && ResumeMarker() != ""
  {
    hide NoteText, ResumeText;
  }

  lemma NoNoteCut(f: string, suppressQuestions: bool, recentPreserved: bool)
    requires Tight(f) && !Contains(f, NoteMarker())
    ensures var note, resume := NoteMarker(), ResumeMarker();
            var tail := (if recentPreserved then note else "") + (if suppressQuestions then resume else "");
            CutAt(f + tail, note) == if !recentPreserved && suppressQuestions then f + resume else f
  {
    hide NoteMarker, ResumeMarker, Contains, CutAt, Tight, LeadingNewlines;
    var note, resume := NoteMarker(), ResumeMarker();
    MarkersLead();
    assert f + "" == f && "" + resume == resume && ("" + "") == "";
    if recentPreserved {
      CutKeeps(f, note, if suppressQuestions then resume else "");
    } else if suppressQuestions {
      NoteNotInResume(f);
    } else {
      CutKeeps(f, note, "");
    }
  }

  // ----- Lines that survive formatting

  /** A line as the extractors leave it: one row, not blank, nothing to trim at the end. */
  predicate Clean(line: string) {
    Rows.Flat(line) && line != "" && !IsWhitespace(line[|line| - 1])
  }

  /** Free of the two tags that would make the formatter cut inside the text. */
  predicate TagFree(line: string) {
    !Contains(line, AnalysisOpen()) && !Contains(line, SummaryClose())
  }

  predicate AllClean(lines: seq<string>) {
    forall i :: 0 <= i < |lines| ==> Clean(lines[i])
  }

  predicate AllTagFree(lines: seq<string>) {
    forall i :: 0 <= i < |lines| ==> TagFree(lines[i])
  }

  predicate AllFlat(lines: seq<string>) {
    forall i :: 0 <= i < |lines| ==> Rows.Flat(lines[i])
  }

  lemma CleanTrimEnd(line: string)
    requires Rows.Flat(line) && TrimEnd(line) != ""
    ensures Clean(TrimEnd(line))
  {
    hide IsWhitespace;
    TrimEndOpen(line);
  }

  lemma {:induction false} HighlightLinesClean(lines: seq<string>)
    requires AllFlat(lines)
    ensures AllClean(HighlightLines(lines))
    ensures forall i :: 0 <= i < |HighlightLines(lines)| ==> !IsHeading(HighlightLines(lines)[i])
  {
    if lines != [] {
      hide Rows.Flat, Clean, TrimEnd, TimelineHeading, Title;
      HighlightLinesClean(lines[1..]);
      if TrimEnd(lines[0]) != "" { CleanTrimEnd(lines[0]); }
    }
  }

  lemma {:induction false} TimelineLinesClean(lines: seq<string>, inTimeline: bool)
    requires AllFlat(lines)
    ensures AllClean(TimelineLines(lines, inTimeline))
    decreases |lines|
  {
    if lines != [] {
      hide Rows.Flat, Clean, TrimEnd, TimelineHeading;
      TimelineLinesClean(lines[1..], true);
      TimelineLinesClean(lines[1..], false);
      if TrimEnd(lines[0]) != "" { CleanTrimEnd(lines[0]); }
    }
  }

  lemma LinesFlat(s: string)
    ensures AllFlat(Lines(s))
  {
    hide Rows.Split;
    Rows.SplitRowsFlat(s);
  }

  lemma ExtractedClean(summary: string)
    ensures AllClean(Highlights(summary)) && AllClean(Timeline(summary))
    ensures forall i :: 0 <= i < |Highlights(summary)| ==> !IsHeading(Highlights(summary)[i])
  {
    hide Format, HighlightLines, TimelineLines, Lines, AllClean, IsHeading, AllFlat;
    LinesFlat(Format(summary));
    HighlightLinesClean(Lines(Format(summary)));
    TimelineLinesClean(Lines(Format(summary)), false);
  }

  lemma IndentedClean(line: string)
    requires Clean(line)
    ensures Clean("  " + line) && TrimEnd("  " + line) == "  " + line
    ensures "  " + line != TimelineHeading() && !IsHeading("  " + line)
  {
    assert ("  " + line)[0] == ' ';
  }

  /** A tag with no newline in it does not run over the end of a row. */
  lemma TagInRows(a: string, b: string, tag: string)
    requires tag != "" && Rows.Flat(tag) && !Contains(a, tag) && !Contains(b, tag)
    ensures !Contains(a + "\n" + b, tag)
  {
    var s := a + "\n" + b;
    forall j: nat ensures !OccursAt(s, tag, j) {
      if j + |tag| <= |a| {
        OccursInPrefix(a, "\n" + b, tag, j);
        assert s == a + ("\n" + b);
      } else if j <= |a| {
        if j + |tag| <= |s| { assert s[j..j + |tag|][|a| - j] == '\n'; }
      } else {
        OccursInSuffix(s, |a| + 1, tag, j - |a| - 1);
        assert s[|a| + 1..] == b;
      }
    }
    assert Find(s, tag).None?;
  }

  lemma {:induction false} TagInJoin(rows: seq<string>, tag: string)
    requires rows != [] && tag != "" && Rows.Flat(tag)
    requires forall i :: 0 <= i < |rows| ==> !Contains(rows[i], tag)
    ensures !Contains(Rows.Join(rows), tag)
  {
    hide Contains, Rows.Flat;
    if |rows| > 1 {
      TagInJoin(rows[1..], tag);
      TagInRows(rows[0], Rows.Join(rows[1..]), tag);
    }
  }
}
