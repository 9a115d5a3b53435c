/** Summaries that do not read back: a message whose text holds a marker of the continuation text puts the
    marker into the summary, and reading stops there. */
module MarkedSummaries {
  import opened Options
  import opened Strings
  import opened Search
  import opened SummaryText
  import opened SummaryLaws
  import opened SummaryMerge
  import opened Compaction
  import opened Summarizer
  import opened WordFree
  import opened SummarizerLaws
  import Rows
  import Utf8Text

  // ----- The last row of a summary

  function Lead(role: Role): string {
    "  - " + RoleText(role) + ": "
  }

  lemma LastRow(messages: seq<Message>, text: string) returns (before: seq<string>)
    requires messages != [] && messages[|messages| - 1].blocks == [Text(text)] && |text| <= 160
    ensures before != [] && before[0] == Title()
    ensures SummaryRows(messages) == before + [Lead(messages[|messages| - 1].role) + text]
  {
    hide ScopeRow, ToolNames, RecentUserRequests, PendingWork, KeyFiles, CurrentWork, InlineRow, ListRows, CurrentRow,
         Title, TimelineHeading, TimelineRow, Lead;
    var n := |messages| - 1;
    OneBlock(messages[n], text);
    var rows := SummaryRows(messages);
    before := rows[..|rows| - 1];
    assert rows[|rows| - 1] == TimelineRow(messages[n]);
    assert rows == before + [rows[|rows| - 1]];
  }

  lemma OneBlock(message: Message, text: string)
    requires message.blocks == [Text(text)] && |text| <= 160
    ensures TimelineRow(message) == Lead(message.role) + text
  {
    assert BlockSummaries(message.blocks) == [text];
  }

  // ----- What formatting makes of it

  lemma DashNotBlank(rest: string)
    ensures !IsBlank("  - " + rest)
  {
    var s := "  - " + rest;
    assert s[1..][1..] == "- " + rest;
    assert TrimStart(s) == TrimStart(s[1..]) == TrimStart(s[1..][1..]) == "- " + rest;
    FrontKept("- " + rest);
  }

  lemma JoinStarts(rows: seq<string>)
    requires rows != [] && rows[0] != ""
    ensures Rows.Join(rows) != "" && Rows.Join(rows)[0] == rows[0][0]
  {
  }

  /** After any lines, three of which the middle one is empty: they stay together. */
  lemma {:induction false} CollapsedTail(lines: seq<string>, y: string, z: string, lastBlank: bool)
    returns (c: string)
    requires !IsBlank(y) && !IsBlank(z)
    ensures Collapsed(lines + [y, "", z], lastBlank) == c + (y + "\n\n" + z + "\n")
    ensures lines != [] && !IsBlank(lines[0]) ==> c != "" && (lines[0] != "" ==> c[0] == lines[0][0])
    decreases |lines|
  {
    hide IsBlank;
    if lines == [] {
      c := "";
      ThreeLines(y, z, lastBlank);
      assert lines + [y, "", z] == [y, "", z];
    } else {
      assert (lines + [y, "", z])[1..] == lines[1..] + [y, "", z];
      if IsBlank(lines[0]) && lastBlank {
        c := CollapsedTail(lines[1..], y, z, true);
      } else {
        var d := CollapsedTail(lines[1..], y, z, IsBlank(lines[0]));
        c := lines[0] + "\n" + d;
        assert lines[0] + "\n" + (d + (y + "\n\n" + z + "\n")) == c + (y + "\n\n" + z + "\n");
      }
    }
  }

  lemma ThreeLines(y: string, z: string, lastBlank: bool)
    requires !IsBlank(y) && !IsBlank(z)
    ensures Collapsed([y, "", z], lastBlank) == y + "\n\n" + z + "\n"
  {
    EmptyIsBlank();
    hide IsBlank;
    assert [y, "", z][1..] == ["", z] && ["", z][1..] == [z] && [z][1..] == [];
    assert Collapsed([z], true) == z + "\n" + "";
    assert y + "\n" + ("" + "\n" + (z + "\n" + "")) == y + "\n\n" + z + "\n";
  }

  lemma EmptyIsBlank()
    ensures IsBlank("")
  {
  }

  /** The lines of the text that is formatted. */
  lemma MarkedLines(head: string, y: string)
    requires Rows.Flat(y) && StripCR(y) == y
    ensures Lines(head + "\n" + y + NoteMarker()) == StripAll(Rows.Split(head)) + [y, "", NoteText()]
  {
    NoteTextFlat();
    NoteIsBreaks();
    hide NoteText, NoteMarker, Rows.Split, Rows.Flat, StripCR, StripAll;
    FourRows(head, y, NoteText());
    LinesOfRows(head + "\n" + y + NoteMarker(), Rows.Split(head), y, NoteText());
  }

  lemma FourRows(head: string, y: string, note: string)
    requires Rows.Flat(y) && Rows.Flat(note)
    ensures Rows.Split(head + "\n" + y + ("\n\n" + note)) == Rows.Split(head) + [y, "", note]
  {
    hide Rows.Split, Rows.Flat;
    TwoRows(y, note);
    Rows.SplitConcat(head, y + ("\n\n" + note));
    assert head + "\n" + y + ("\n\n" + note) == head + "\n" + (y + ("\n\n" + note));
  }

  lemma TwoRows(y: string, note: string)
    requires Rows.Flat(y) && Rows.Flat(note)
    ensures Rows.Split(y + ("\n\n" + note)) == [y, "", note]
  {
    hide Rows.Split, Rows.Flat;
    var none := "";
    Rows.SplitConcat(y, none + "\n" + note);
    Rows.SplitConcat(none, note);
    Rows.SplitFlat(y);
    Rows.SplitFlat(note);
    Rows.SplitNothing();
    assert y + "\n" + (none + "\n" + note) == y + ("\n\n" + note);
    assert [y] + ([none] + [note]) == [y, none, note];
  }

  lemma LinesOfRows(text: string, q: seq<string>, y: string, note: string)
    requires Rows.Split(text) == q + [y, "", note] && note != "" && StripCR(y) == y
    ensures Lines(text) == StripAll(q) + [y, "", note]
  {
    var rows, none := Rows.Split(text), "";
    assert rows[..|rows| - 1] == q + [y, none] && rows[|rows| - 1] == note;
    assert StripCR(none) == none;
    hide StripCR;
    assert StripAll(q + [y, none]) == StripAll(q) + [y, none];
  }

  lemma SummaryFirst(before: seq<string>)
    requires before != []
    ensures StripAll(Rows.Split("Summary:" + "\n" + Rows.Join(before)))[0] == "Summary:"
  {
    hide Rows.Join;
    Rows.SplitConcat("Summary:", Rows.Join(before));
    Rows.SplitFlat("Summary:");
  }

  lemma NoteEnds()
    ensures NoteText() != "" && NoteText()[0] == 'R' && NoteText()[|NoteText()| - 1] == '.'
    ensures !IsBlank(NoteText())
  {
    StartNotBlank(NoteText());
  }

  /** The text between the tags, trimmed. */
  lemma MarkedInner(before: seq<string>, y: string)
    requires before != [] && before[0] == Title()
    ensures Trim(Inner(before + [y + NoteMarker()])) == Rows.Join(before) + "\n" + (y + NoteMarker())
  {
    TitleStarts();
    NoteEnds();
    NoteIsBreaks();
    hide Title, NoteText, NoteMarker, Rows.Join, Trim, TrimEnd;
    var w := y + NoteMarker();
    JoinConcat(before, [w]);
    JoinSingle(w);
    JoinStarts(before);
    var t := Rows.Join(before) + "\n" + w;
    assert t[0] == Title()[0] && t[|t| - 1] == '.';
    assert Tight(t);
    TrimNewlinesAround(t);
  }

  lemma TitleStarts()
    ensures Title() != "" && Title()[0] == 'C'
  {
  }

  /** A summary whose last row ends with the note marker formats to a text that holds it. */
  lemma MarkedFormats(before: seq<string>, y: string)
    requires before != [] && before[0] == Title() && AllTagFree(before + [y + NoteMarker()])
    requires Rows.Flat(y) && StripCR(y) == y && !IsBlank(y)
    ensures Contains(Format(Wrapped(before + [y + NoteMarker()])), NoteMarker())
  {
    hide Format, Wrapped, Title, NoteText, NoteMarker, Rows.Join, Rows.Split, Rows.Flat, IsBlank, StripCR, Trim,
         TrimEnd, Collapsed, Lines, AllTagFree, Inner, Contains, StripAll;
    var body, head := before + [y + NoteMarker()], "Summary:" + "\n" + Rows.Join(before);
    FormatsInner(body);
    MarkedInner(before, y);
    assert "Summary:\n" + (Rows.Join(before) + "\n" + (y + NoteMarker())) == head + "\n" + y + NoteMarker();
    MarkedLines(head, y);
    SummaryFirst(before);
    HeadNotBlank();
    NoteEnds();
    StripAllLength(head);
    var c := CollapsedTail(StripAll(Rows.Split(head)), y, NoteText(), false);
    NoteIsBreaks();
    var s := c + y + NoteMarker();
    assert c + (y + "\n\n" + NoteText() + "\n") == s + "\n";
    assert s[0] == 'S' && s[|s| - 1] == '.';
    TrimNewlineAfter(s);
    ContainsEnd(c + y, NoteMarker());
  }

  lemma HeadNotBlank()
    ensures !IsBlank("Summary:")
  {
    StartNotBlank("Summary:");
  }

  lemma StripAllLength(head: string)
    ensures StripAll(Rows.Split(head)) != []
  {
  }

  lemma ContainsEnd(s: string, word: string)
    ensures Contains(s + word, word)
  {
    assert (s + word)[|s|..|s| + |word|] == word;
    assert OccursAt(s + word, word, |s|);
  }

  // ----- A first compaction whose summary is cut off

  /** A compaction over a session whose last removed message ends with the note marker: the summary it writes
      does not read back. */
  lemma MarkedTextIsLost(session: Session, config: Config, x: string)
    requires ShouldCompact(session, config) && ExistingSummary(session.messages).None? && AllPlain(session.messages)
    requires var removed := Removed(session, config);
             removed != [] && removed[|removed| - 1].blocks == [Text(x + NoteMarker())]
    requires |x| <= 100 && Rows.Flat(x) && x != "" && x[|x| - 1] != '\r'
    ensures ExistingSummary(Compact(session, config, Summarize).session.messages)
         != Some(Format(Summarize(Removed(session, config))))
  {
    NoteLength();
    hide ShouldCompact, Compact, ExistingSummary, Removed, Format, SummaryRows, Wrapped, NoteMarker, Contains, AllPlain,
         AllTagFree, RoleText, Rows.Flat, IsBlank, StripCR, Lead, Title, ResumeMarker;
    PlainParts(session, config);
    var removed := Removed(session, config);
    var role := removed[|removed| - 1].role;
    var before := LastRow(removed, x + NoteMarker());
    LeadRow(role, x);
    assert Lead(role) + (x + NoteMarker()) == Lead(role) + x + NoteMarker();
    SummaryRowsTagFree(removed);
    MarkedFormats(before, Lead(role) + x);
    FirstSummaryReadsBack(session, config);
  }

  lemma NoteLength()
    ensures |NoteMarker()| <= 60
  {
  }

  lemma LeadRow(role: Role, x: string)
    requires Rows.Flat(x) && x != "" && x[|x| - 1] != '\r'
    ensures var y := Lead(role) + x; Rows.Flat(y) && StripCR(y) == y && !IsBlank(y)
  {
    var y := Lead(role) + x;
    DashNotBlank(RoleText(role) + ": " + x);
    hide IsBlank;
    assert y == "  - " + (RoleText(role) + ": " + x);
    assert y[|y| - 1] != '\r';
  }

  /** One assistant message that ends with the note. */
  function MarkedMessage(): Message {
    Message(Assistant, [Text("done" + NoteMarker())], None)
  }

  function MarkedSession(): Session {
    Session(1, [MarkedMessage()], None)
  }

  /** Compacting it writes a summary that is not what is read back. */
  lemma MarkedSessionIsLost()
    ensures var session, config := MarkedSession(), Config(0, 1);
            && ShouldCompact(session, config) && ExistingSummary(session.messages).None?
            && ExistingSummary(Compact(session, config, Summarize).session.messages)
               != Some(Format(Summarize(Removed(session, config))))
  {
    DonePlain();
    hide NoteMarker, ShouldCompact, Compact, ExistingSummary, Format, Summarize, PlainMessage, Removed;
    MarkedFires(MarkedMessage());
    MarkedTextIsLost(MarkedSession(), Config(0, 1), "done");
  }

  lemma DonePlain()
    ensures PlainMessage(MarkedMessage())
  {
    NotePlain();
    NoteIsBreaks();
    hide TagFree, NoteText, NoteMarker, PlainMessage;
    var text := "done" + NoteMarker();
    assert '<' !in text;
    NoTag(text);
    TextPlain(MarkedMessage(), text);
  }

  lemma TextPlain(message: Message, text: string)
    requires message.blocks == [Text(text)] && TagFree(text)
    ensures PlainMessage(message)
  {
    TagFreeLacks(text);
    hide Lacks, TagFree, AnalysisOpen, SummaryClose;
  }

  lemma MarkedFires(message: Message)
    requires message.role == Assistant && |message.blocks| == 1 && message.blocks[0].Text?
    ensures var session, config := Session(1, [message], None), Config(0, 1);
            && ShouldCompact(session, config) && ExistingSummary(session.messages).None?
            && Removed(session, config) == [message]
  {
    OneText(message);
    NoSummary(message);
    hide EstimateBlocks, ExtractExisting;
    assert [message][0..] == [message] && [message][1..] == [];
    assert EstimateMessages([message]) == EstimateBlocks(message.blocks);
  }

  lemma NoSummary(message: Message)
    requires message.role == Assistant
    ensures ExtractExisting(message).None?
  {
  }

  lemma OneText(message: Message)
    requires |message.blocks| == 1 && message.blocks[0].Text?
    ensures EstimateBlocks(message.blocks) >= 1
  {
    hide Utf8Text.ByteLen;
    assert message.blocks[1..] == [];
  }
}
