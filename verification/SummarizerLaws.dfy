/** Tag-free messages give tag-free summaries, so for the program's own summariser highlights outlive every
    run under a condition on the messages alone. */
module SummarizerLaws {
  import opened Options
  import opened Strings
  import opened Search
  import opened SummaryText
  import opened SummaryLaws
  import opened SummaryMerge
  import opened Compaction
  import opened CompactionRuns
  import opened Summarizer
  import opened WordFree

  // ----- Tag-free texts

  lemma TagFreeLacks(text: string)
    ensures TagFree(text) <==> Lacks(text, AnalysisOpen()) && Lacks(text, SummaryClose())
  {
    hide Contains;
  }

  lemma AllTagFreeLack(texts: seq<string>)
    ensures AllTagFree(texts) <==> AllLack(texts, AnalysisOpen()) && AllLack(texts, SummaryClose())
  {
    hide Contains, AnalysisOpen, SummaryClose;
  }

  lemma TagsFit()
    ensures Fits(AnalysisOpen()) && Fits(SummaryClose())
    ensures AnalysisOpen() != "" && SummaryClose() != ""
    ensures AnalysisOpen()[0] == '<' && SummaryClose()[0] == '<'
    ensures '\n' !in AnalysisOpen() && '\n' !in SummaryClose()
  {
  }

  lemma PrefixTagFree(prefix: string, text: string)
    requires '<' !in prefix && TagFree(text)
    ensures TagFree(prefix + text)
  {
    TagsFit();
    hide AnalysisOpen, SummaryClose, Contains, Fits;
    Begins(prefix, text, AnalysisOpen());
    Begins(prefix, text, SummaryClose());
  }

  lemma LineTagFree(a: string, b: string)
    requires TagFree(a) && TagFree(b)
    ensures TagFree(a + ['\n'] + b)
  {
    TagsFit();
    hide AnalysisOpen, SummaryClose, Contains, Fits;
    JoinedBy(a, '\n', b, AnalysisOpen());
    JoinedBy(a, '\n', b, SummaryClose());
  }

  lemma PartTagFree(s: string, i: nat, j: nat)
    requires i <= j <= |s| && TagFree(s)
    ensures TagFree(s[i..j])
  {
    hide AnalysisOpen, SummaryClose, Contains;
    PartLacks(s, i, j, AnalysisOpen());
    PartLacks(s, i, j, SummaryClose());
  }

  lemma TrimTagFree(s: string)
    requires TagFree(s)
    ensures TagFree(Trim(s)) && TagFree(TrimEnd(s))
  {
    hide AnalysisOpen, SummaryClose, Contains, Trim, TrimEnd;
    TrimLack(s, AnalysisOpen());
    TrimLack(s, SummaryClose());
  }

  lemma LinesTagFree(s: string)
    requires TagFree(s)
    ensures AllTagFree(Lines(s))
  {
    hide TagFree, Lacks, Lines;
    TagFreeLacks(s);
    LinesLack(s, AnalysisOpen());
    LinesLack(s, SummaryClose());
    AllTagFreeLack(Lines(s));
  }

  lemma CollapsedLinesTagFree(s: string)
    requires TagFree(s)
    ensures TagFree(Trim(Collapsed(Lines(s), false)))
  {
    TagsFit();
    hide AnalysisOpen, SummaryClose, Contains, Fits, Trim, TrimEnd, Collapsed, Lines;
    CollapsedLinesLack(s, AnalysisOpen());
    CollapsedLinesLack(s, SummaryClose());
  }

  lemma FormatTagFree(s: string)
    requires TagFree(s)
    ensures TagFree(Format(s))
  {
    hide TagFree, Format, Trim, Collapsed, Lines;
    UntaggedFormat(s);
    CollapsedLinesTagFree(s);
  }

  lemma {:induction false} ExtractedTagFree(lines: seq<string>, inTimeline: bool)
    requires AllTagFree(lines)
    ensures AllTagFree(HighlightLines(lines)) && AllTagFree(TimelineLines(lines, inTimeline))
    decreases |lines|
  {
    hide TagFree, TrimEnd, Trim, TimelineHeading, IsHeading;
    if lines != [] {
      TrimTagFree(lines[0]);
      ExtractedTagFree(lines[1..], true);
      ExtractedTagFree(lines[1..], false);
    }
  }

  lemma HighlightsTagFree(s: string)
    requires TagFree(s)
    ensures AllTagFree(Highlights(s)) && AllTagFree(Timeline(s))
  {
    hide TagFree, Format, Lines, HighlightLines, TimelineLines, AllTagFree;
    FormatTagFree(s);
    LinesTagFree(Format(s));
    ExtractedTagFree(Lines(Format(s)), false);
  }

  /** A summary whose rows between the tags are tag-free formats to a tag-free text. */
  /** A summary whose rows between the tags are tag-free formats to a tag-free text. */
  lemma WrappedTagFree(body: seq<string>)
    requires body != [] && AllTagFree(body)
    ensures TagFree(Format(Wrapped(body)))
  {
    TagsFit();
    AllTagFreeLack(body);
    hide AnalysisOpen, SummaryClose, Contains, Fits, Format, Wrapped, AllTagFree, AllLack;
    FormattedLacks(body, AnalysisOpen());
    FormattedLacks(body, SummaryClose());
  }

  // ----- What is read back from a continuation text

  lemma CutPart(s: string, marker: string)
    ensures |CutAt(s, marker)| <= |s| && CutAt(s, marker) == s[..|CutAt(s, marker)|]
  {
  }

  lemma CutTagFree(s: string, marker: string)
    requires TagFree(s)
    ensures TagFree(CutAt(s, marker))
  {
    CutPart(s, marker);
    hide TagFree, CutAt;
    PartTagFree(s, 0, |CutAt(s, marker)|);
    assert s[0..|CutAt(s, marker)|] == CutAt(s, marker);
  }

  lemma ReadBackTagFree(text: string)
    requires TagFree(text) && ExtractText(text).Some?
    ensures TagFree(ExtractText(text).value)
  {
    hide TagFree, CutAt, Trim, TrimEnd, Preamble, NoteMarker, ResumeMarker;
    var n := |Preamble()|;
    PartTagFree(text, n, |text|);
    assert text[n..|text|] == text[n..];
    CutTagFree(text[n..], NoteMarker());
    CutTagFree(CutAt(text[n..], NoteMarker()), ResumeMarker());
    TrimTagFree(CutAt(CutAt(text[n..], NoteMarker()), ResumeMarker()));
  }

  lemma FixedTexts()
    ensures '<' !in Preamble() && Preamble() != "" && Preamble()[|Preamble()| - 1] == '\n'
    ensures TagFree(NoteText()) && TagFree(ResumeText())
  {
    PreamblePlain();
    NotePlain();
    ResumePlain();
    hide NoteText, ResumeText, Preamble, TagFree;
    NoTag(NoteText());
    NoTag(ResumeText());
  }

  lemma NotePlain()
    ensures '<' !in NoteText()
  {
  }

  lemma PreamblePlain()
    ensures '<' !in Preamble() && Preamble() != "" && Preamble()[|Preamble()| - 1] == '\n'
  {
    Preamble1Plain();
    Preamble2Plain();
    Preamble3Plain();
    Preamble4Plain();
    Preamble5Plain();
    hide Preamble1, Preamble2, Preamble3, Preamble4, Preamble5;
    assert '<' !in "\n\n";
  }

  lemma Preamble1Plain()
    ensures '<' !in Preamble1()
  {
  }

  lemma Preamble2Plain()
    ensures '<' !in Preamble2()
  {
  }

  lemma Preamble3Plain()
    ensures '<' !in Preamble3()
  {
  }

  lemma Preamble4Plain()
    ensures '<' !in Preamble4()
  {
  }

  lemma Preamble5Plain()
    ensures '<' !in Preamble5()
  {
  }

  lemma ResumePlain()
    ensures '<' !in ResumeText()
  {
    Resume1Plain();
    Resume2Plain();
    Resume3Plain();
    Resume4Plain();
    Resume5Plain();
    Resume6Plain();
    hide ResumeText1, ResumeText2, ResumeText3, ResumeText4, ResumeText5, ResumeText6;
  }

  lemma Resume1Plain()
    ensures '<' !in ResumeText1()
  {
  }

  lemma Resume2Plain()
    ensures '<' !in ResumeText2()
  {
  }

  lemma Resume3Plain()
    ensures '<' !in ResumeText3()
  {
  }

  lemma Resume4Plain()
    ensures '<' !in ResumeText4()
  {
  }

  lemma Resume5Plain()
    ensures '<' !in ResumeText5()
  {
  }

  lemma Resume6Plain()
    ensures '<' !in ResumeText6()
  {
  }

  lemma ContinuationTagFree(summary: string, suppressQuestions: bool, recentPreserved: bool)
    requires TagFree(Format(summary))
    ensures TagFree(ContinuationText(summary, suppressQuestions, recentPreserved))
  {
    FixedTexts();
    hide TagFree, Format, Preamble, NoteMarker, ResumeMarker;
    var text := Preamble() + Format(summary);
    PrefixTagFree(Preamble(), Format(summary));
    WithNote(text, recentPreserved);
    WithResume(text + (if recentPreserved then NoteMarker() else ""), suppressQuestions);
  }

  lemma WithNote(text: string, recentPreserved: bool)
    requires TagFree(text) && TagFree(NoteText())
    ensures TagFree(text + if recentPreserved then NoteMarker() else "")
  {
    NoTag("");
    hide TagFree, NoteText, NoteMarker;
    TwoBreaks(text, NoteText());
    if recentPreserved {
      var none := "";
      LineTagFree(text, none);
      LineTagFree(text + ['\n'] + none, NoteText());
      NoteIsBreaks();
    } else {
      assert text + "" == text;
    }
  }

  lemma TwoBreaks(a: string, b: string)
    ensures a + ['\n'] + "" + ['\n'] + b == a + ("\n\n" + b)
  {
  }

  lemma NoteIsBreaks()
    ensures NoteMarker() == "\n\n" + NoteText()
  {
  }

  lemma WithResume(text: string, suppressQuestions: bool)
    requires TagFree(text) && TagFree(ResumeText())
    ensures TagFree(text + if suppressQuestions then ResumeMarker() else "")
  {
    hide TagFree, ResumeText;
    if suppressQuestions {
      LineTagFree(text, ResumeText());
      assert text + ['\n'] + ResumeText() == text + ResumeMarker();
    } else {
      assert text + "" == text;
    }
  }

  // ----- Tag-free messages

  /** No text and no tool name of the message holds an opening analysis tag or a closing summary tag. */
  predicate PlainMessage(message: Message) {
    MessageLacks(message, AnalysisOpen()) && MessageLacks(message, SummaryClose())
  }

  predicate AllPlain(messages: seq<Message>) {
    forall i | 0 <= i < |messages| :: PlainMessage(messages[i])
  }

  lemma AllPlainLack(messages: seq<Message>)
    ensures AllPlain(messages) <==> MessagesLack(messages, AnalysisOpen()) && MessagesLack(messages, SummaryClose())
  {
    hide MessageLacks, AnalysisOpen, SummaryClose;
  }

  lemma SummaryRowsTagFree(messages: seq<Message>)
    requires AllPlain(messages)
    ensures AllTagFree(SummaryRows(messages))
  {
    TagsFit();
    AllPlainLack(messages);
    hide AllPlain, MessagesLack, AllTagFree, AllLack, SummaryRows, Fits, AnalysisOpen, SummaryClose;
    SummaryRowsLack(messages, AnalysisOpen());
    SummaryRowsLack(messages, SummaryClose());
    AllTagFreeLack(SummaryRows(messages));
  }

  /** Tag-free messages are summarised in a text that formats tag-free, and whose highlights and timeline
      a merge can take over. */
  lemma TagFreeMessagesAreReady(messages: seq<Message>)
    requires AllPlain(messages)
    ensures TagFree(Format(Summarize(messages))) && NewReady(Summarize(messages))
  {
    hide SummaryRows, Wrapped, Format, TagFree, AllTagFree, Highlights, Timeline, AllPlain;
    SummaryRowsTagFree(messages);
    RowsExist(messages);
    WrappedTagFree(SummaryRows(messages));
    HighlightsTagFree(Format(Summarize(messages)));
  }

  lemma RowsExist(messages: seq<Message>)
    ensures SummaryRows(messages) != []
  {
    hide ScopeRow, ToolNames, RecentUserRequests, PendingWork, KeyFiles, CurrentWork, TimelineRows;
  }

  // ----- Runs with the program's own summariser

  /** What is read back from a summary message of plain messages is tag-free. */
  lemma ExistingTagFree(messages: seq<Message>)
    requires AllPlain(messages) && ExistingSummary(messages).Some?
    ensures TagFree(ExistingSummary(messages).value)
  {
    hide TagFree, Lacks, FirstTextBlock, ExtractText, BlockLacks, AnalysisOpen, SummaryClose;
    assert PlainMessage(messages[0]);
    var blocks := messages[0].blocks;
    FirstTextLack(blocks, AnalysisOpen());
    FirstTextLack(blocks, SummaryClose());
    TagFreeLacks(FirstTextBlock(blocks).value);
    ReadBackTagFree(FirstTextBlock(messages[0].blocks).value);
  }

  lemma SummaryPlain(summary: string, recentPreserved: bool)
    requires TagFree(Format(summary))
    ensures PlainMessage(SummaryMessage(summary, recentPreserved))
  {
    hide TagFree, Lacks, Format, ContinuationText, AnalysisOpen, SummaryClose;
    ContinuationTagFree(summary, true, recentPreserved);
    TagFreeLacks(ContinuationText(summary, true, recentPreserved));
  }

  lemma MergedTagFree(existing: string, new_: string)
    requires MergeReady(existing, new_)
    ensures TagFree(Format(Merge(Some(existing), new_)))
  {
    MergedBodyRows(existing, new_);
    var body := MergedBody(existing, new_);
    assert Merge(Some(existing), new_) == Wrapped(body);
    hide Merge, MergeReady, Format, Wrapped, MergedRows, MergedBody, Rows.Join, TagFree;
    FormatWrapped(body);
    FormattedTagFree(body);
  }

  lemma PlainParts(session: Session, config: Config)
    requires AllPlain(session.messages) && ShouldCompact(session, config)
    ensures AllPlain(Removed(session, config)) && AllPlain(Preserved(session, config))
  {
    hide AllPlain, ShouldCompact, ExistingSummary;
    SlicesInRange(session, config);
    PlainSlice(session.messages, PrefixLen(session.messages), KeepFrom(session, config));
    PlainSlice(session.messages, KeepFrom(session, config), |session.messages|);
    assert session.messages[KeepFrom(session, config)..|session.messages|] == Preserved(session, config);
  }

  lemma PlainSlice(messages: seq<Message>, i: nat, j: nat)
    requires i <= j <= |messages| && AllPlain(messages)
    ensures AllPlain(messages[i..j])
  {
    hide PlainMessage;
    forall k | 0 <= k < j - i ensures PlainMessage(messages[i..j][k]) {
      assert messages[i..j][k] == messages[i + k];
    }
  }

  /** The summary a compaction writes about plain messages formats to a tag-free text. */
  lemma NewTextTagFree(session: Session, config: Config)
    requires AllPlain(session.messages) && ShouldCompact(session, config)
    ensures TagFree(Format(NewSummaryText(session, config, Summarize)))
    ensures NewReady(Summarize(Removed(session, config)))
  {
    hide TagFree, Format, Summarize, MergedBody, ShouldCompact, Removed, ExistingSummary, AllPlain, NewReady,
         Highlights, Wrapped, AllTagFree;
    PlainParts(session, config);
    TagFreeMessagesAreReady(Removed(session, config));
    if ExistingSummary(session.messages).Some? {
      ExistingTagFree(session.messages);
      HighlightsTagFree(ExistingSummary(session.messages).value);
      MergedTagFree(ExistingSummary(session.messages).value, Summarize(Removed(session, config)));
    }
  }

  lemma CompactKeepsPlain(session: Session, config: Config)
    requires AllPlain(session.messages) && ShouldCompact(session, config)
    ensures AllPlain(Compact(session, config, Summarize).session.messages)
  {
    hide ShouldCompact, Compact, EstimateMessages, NewSummaryText, Removed, Preserved, Format, EffectiveStatus, UsageOf,
         TurnsOf, AddUsage, Wrapping, Summarize, PlainMessage, TagFree, SummaryMessage;
    PlainParts(session, config);
    NewTextTagFree(session, config);
    CompactedParts(session, config, Summarize);
    SummaryPlain(NewSummaryText(session, config, Summarize), Preserved(session, config) != []);
  }

  /** When no live and no appended message holds a tag, no message ever does, and every summary the
      program writes is ready to be merged. */
  lemma {:induction false} PlainRunsAreReady(session: Session, ops: seq<Op>)
    requires AllPlain(session.messages) && AllPlain(Appended(ops))
    ensures AllPlain(Run(session, ops, Summarize).messages) && SummariesReady(session, ops, Summarize)
    decreases |ops|
  {
    hide AllPlain, Summarize, Appended, Apply, Fires, NewReady, Removed;
    if ops != [] {
      var before, op := ops[..|ops| - 1], ops[|ops| - 1];
      PlainEarlier(ops);
      PlainRunsAreReady(session, before);
      StepKeepsPlain(Run(session, before, Summarize), op);
    }
  }

  lemma StepKeepsPlain(s: Session, op: Op)
    requires AllPlain(s.messages) && (op.Append? ==> PlainMessage(op.message))
    ensures AllPlain(Apply(s, op, Summarize).messages)
    ensures Fires(s, op) ==> NewReady(Summarize(Removed(s, op.config)))
  {
    hide Compact, ShouldCompact, AllPlain, PlainMessage, Summarize, NewReady, Removed;
    match op {
      case Append(m) => AppendKeepsPlain(s.messages, m);
      case CompactWith(config) =>
        if ShouldCompact(s, config) {
          NewTextTagFree(s, config);
          CompactKeepsPlain(s, config);
        } else {
          NotFired(s, config, Summarize);
        }
    }
  }

  lemma AppendKeepsPlain(messages: seq<Message>, m: Message)
    requires AllPlain(messages) && PlainMessage(m)
    ensures AllPlain(messages + [m])
  {
    hide PlainMessage;
  }

  lemma PlainEarlier(ops: seq<Op>)
    requires ops != [] && AllPlain(Appended(ops))
    ensures AllPlain(Appended(ops[..|ops| - 1]))
    ensures ops[|ops| - 1].Append? ==> PlainMessage(ops[|ops| - 1].message)
  {
    hide PlainMessage;
    var before := Appended(ops[..|ops| - 1]);
    if ops[|ops| - 1].Append? {
      assert Appended(ops)[|before|] == ops[|ops| - 1].message;
      assert Appended(ops)[..|before|] == before;
    }
  }

  /** With the program's own summariser: as long as no message holds a tag, a block of highlights stays
      in the summary through every run. */
  lemma OwnHighlightsOutliveRuns(session: Session, ops: seq<Op>, at: nat, block: seq<string>)
    requires AllPlain(session.messages) && AllPlain(Appended(ops)) && ExistingSummary(session.messages).Some?
    requires block != [] && BlockAt(Highlights(ExistingSummary(session.messages).value), at, block)
    ensures var final, m := Run(session, ops, Summarize), Fired(session, ops, Summarize);
            && ExistingSummary(final.messages).Some?
            && BlockAt(Highlights(ExistingSummary(final.messages).value), at + m, IndentedTimes(block, m))
  {
    hide *;
    PlainRunsAreReady(session, ops);
    ExistingTagFree(session.messages);
    HighlightsTagFree(ExistingSummary(session.messages).value);
    HighlightsOutliveRuns(session, ops, Summarize, at, block);
  }

  /** The summary of a first compaction reads back whole exactly when it holds none of the two markers
      that the continuation message may put after it. */
  lemma FirstSummaryReadsBack(session: Session, config: Config)
    requires ShouldCompact(session, config) && ExistingSummary(session.messages).None?
    ensures var formatted := Format(Summarize(Removed(session, config)));
            ExistingSummary(Compact(session, config, Summarize).session.messages) == Some(formatted) <==>
              !Contains(formatted, NoteMarker()) && !Contains(formatted, ResumeMarker())
  {
    hide ShouldCompact, Compact, EstimateMessages, Removed, Preserved, Format, EffectiveStatus, UsageOf, TurnsOf,
         Summarize, ExtractExisting, ContinuationText, ExtractText, SummaryMessage, Contains, NoteMarker, ResumeMarker;
    CompactedParts(session, config, Summarize);
    var summary, recent := Summarize(Removed(session, config)), Preserved(session, config) != [];
    assert NewSummaryText(session, config, Summarize) == summary;
    ContinuationRecoversExactly(summary, true, recent);
    SummaryMessageRecognised(summary, recent);
    assert Compact(session, config, Summarize).session.messages[0] == SummaryMessage(summary, recent);
  }

  // ----- The words of the markers

  /** No text and no tool name of the messages holds the words that the markers of the continuation text are
      recognised by. */
  predicate Unmarked(messages: seq<Message>) {
    MessagesLack(messages, NoteWords()) && MessagesLack(messages, ResumeWords())
  }

  lemma NoteWordsFit()
    ensures Fits(NoteWords())
  {
    NoteLetters();
    assert |NoteWords()| > 30 && NoteWords()[0] == 'R' && NoteWords()[|NoteWords()| - 1] == 'm';
    hide NoteWords, Separates;
  }

  lemma NoteLetters()
    ensures forall c <- NoteWords() :: !Separates(c)
  {
    NoteLettersFirst();
    NoteLettersLast();
  }

  lemma NoteLettersFirst()
    ensures forall c <- "Recent messages " :: !Separates(c)
  {
  }

  lemma NoteLettersLast()
    ensures forall c <- "are preserved verbatim" :: !Separates(c)
  {
  }

  lemma ResumeWordsFit()
    ensures Fits(ResumeWords())
  {
    ResumeLetters();
    assert |ResumeWords()| > 30 && ResumeWords()[0] == 'C' && ResumeWords()[|ResumeWords()| - 1] == 'e';
    hide ResumeWords, Separates;
  }

  lemma ResumeLetters()
    ensures forall c <- ResumeWords() :: !Separates(c)
  {
    ResumeLettersFirst();
    ResumeLettersLast();
  }

  lemma ResumeLettersFirst()
    ensures forall c <- "Continue the " :: !Separates(c)
  {
  }

  lemma ResumeLettersLast()
    ensures forall c <- "conversation from where" :: !Separates(c)
  {
  }

  lemma AroundAbsent(text: string, before: string, word: string, after: string)
    requires Lacks(text, word)
    ensures !Contains(text, before + word + after)
  {
    var whole := before + word + after;
    forall j: nat ensures !OccursAt(text, whole, j) {
      if OccursAt(text, whole, j) {
        var k := j + |before|;
        PartOfPart(text, j, j + |whole|, |before|, |before| + |word|);
        MiddlePart(before, word, after);
        assert OccursAt(text, word, k);
      }
    }
    assert Find(text, whole).None?;
  }

  lemma MiddlePart(before: string, word: string, after: string)
    ensures (before + word + after)[|before|..|before| + |word|] == word
  {
  }

  lemma MarkersAround(text: string)
    requires Lacks(text, NoteWords()) && Lacks(text, ResumeWords())
    ensures !Contains(text, NoteMarker()) && !Contains(text, ResumeMarker())
  {
    MarkerWords();
    hide NoteWords, ResumeWords, NoteMarker, ResumeMarker, Contains, Lacks;
    var rest :| ResumeMarker() == "\n" + ResumeWords() + rest;
    AroundAbsent(text, "\n\n", NoteWords(), ".");
    AroundAbsent(text, "\n", ResumeWords(), rest);
  }

  lemma MarkerWords()
    ensures NoteMarker() == "\n\n" + NoteWords() + "."
    ensures exists rest :: ResumeMarker() == "\n" + ResumeWords() + rest
  {
    hide NoteWords, ResumeWords, ResumeText2, ResumeText3, ResumeText4, ResumeText5, ResumeText6;
    assert NoteMarker() == "\n\n" + NoteWords() + ".";
    var later := ResumeText2() + (ResumeText3() + (ResumeText4() + (ResumeText5() + ResumeText6())));
    assert ResumeMarker() == "\n" + ResumeWords() + (" it " + later);
  }

  /** A summary of messages without tags and without the words of the markers holds neither marker. */
  lemma UnmarkedSummary(messages: seq<Message>)
    requires AllPlain(messages) && Unmarked(messages)
    ensures var formatted := Format(Summarize(messages));
            !Contains(formatted, NoteMarker()) && !Contains(formatted, ResumeMarker())
  {
    NoteWordsFit();
    ResumeWordsFit();
    RowsExist(messages);
    hide AllPlain, MessagesLack, AllTagFree, AllLack, SummaryRows, Fits, Contains, Format, Wrapped, NoteMarker,
         ResumeMarker, NoteWords, ResumeWords;
    SummaryRowsTagFree(messages);
    SummaryRowsLack(messages, NoteWords());
    SummaryRowsLack(messages, ResumeWords());
    FormattedLacks(SummaryRows(messages), NoteWords());
    FormattedLacks(SummaryRows(messages), ResumeWords());
    MarkersAround(Format(Summarize(messages)));
  }

  /** From the first compaction on: what its summary says of the removed messages outlives every later run,
      provided the summary holds neither marker. */
  lemma FirstHighlightsOutliveRuns(session: Session, config: Config, ops: seq<Op>, at: nat, block: seq<string>)
    requires AllPlain(session.messages) && AllPlain(Appended(ops))
    requires ShouldCompact(session, config) && ExistingSummary(session.messages).None?
    requires var formatted := Format(Summarize(Removed(session, config)));
             && !Contains(formatted, NoteMarker()) && !Contains(formatted, ResumeMarker())
             && block != [] && BlockAt(Highlights(formatted), at, block)
    ensures var first := Compact(session, config, Summarize).session;
            var final, m := Run(first, ops, Summarize), Fired(first, ops, Summarize);
            && ExistingSummary(final.messages).Some?
            && BlockAt(Highlights(ExistingSummary(final.messages).value), at + m, IndentedTimes(block, m))
  {
    hide Run, Fired, ExistingSummary, Highlights, BlockAt, IndentedTimes, AllPlain, Appended, Summarize, Compact,
         Format, ShouldCompact, Removed, Contains, NoteMarker, ResumeMarker;
    FirstSummaryReadsBack(session, config);
    CompactKeepsPlain(session, config);
    OwnHighlightsOutliveRuns(Compact(session, config, Summarize).session, ops, at, block);
  }

  /** The same on conditions about the texts of messages alone. */
  lemma UnmarkedHighlightsOutliveRuns(session: Session, config: Config, ops: seq<Op>, at: nat, block: seq<string>)
    requires AllPlain(session.messages) && Unmarked(session.messages) && AllPlain(Appended(ops))
    requires ShouldCompact(session, config) && ExistingSummary(session.messages).None?
    requires block != [] && BlockAt(Highlights(Format(Summarize(Removed(session, config)))), at, block)
    ensures var first := Compact(session, config, Summarize).session;
            var final, m := Run(first, ops, Summarize), Fired(first, ops, Summarize);
            && ExistingSummary(final.messages).Some?
            && BlockAt(Highlights(ExistingSummary(final.messages).value), at + m, IndentedTimes(block, m))
  {
    hide Run, Fired, ExistingSummary, Highlights, BlockAt, IndentedTimes, AllPlain, Appended, Summarize, Compact,
         Format, ShouldCompact, Removed, Contains, NoteMarker, ResumeMarker, Unmarked;
    PlainParts(session, config);
    UnmarkedParts(session, config);
    UnmarkedSummary(Removed(session, config));
    FirstHighlightsOutliveRuns(session, config, ops, at, block);
  }

  lemma UnmarkedParts(session: Session, config: Config)
    requires Unmarked(session.messages) && ShouldCompact(session, config)
    ensures Unmarked(Removed(session, config))
  {
    hide MessagesLack, ShouldCompact, ExistingSummary, NoteWords, ResumeWords;
    SlicesInRange(session, config);
    SliceLacks(session.messages, PrefixLen(session.messages), KeepFrom(session, config), NoteWords());
    SliceLacks(session.messages, PrefixLen(session.messages), KeepFrom(session, config), ResumeWords());
  }

  lemma SliceLacks(messages: seq<Message>, i: nat, j: nat, word: string)
    requires i <= j <= |messages| && MessagesLack(messages, word)
    ensures MessagesLack(messages[i..j], word)
  {
    hide MessageLacks;
    forall k | 0 <= k < j - i ensures MessageLacks(messages[i..j][k], word) {
      assert messages[i..j][k] == messages[i + k];
    }
  }
}
