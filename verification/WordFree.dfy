/** A word that no message holds is in no summary of them: the rows that a summary is made of add nothing that
    could make up such a word, and neither does formatting. */
module WordFree {
  import opened Numbers
  import opened Options
  import opened Strings
  import opened Search
  import opened SummaryText
  import opened SummaryLaws
  import opened SummaryMerge
  import opened Compaction
  import opened Summarizer

  // ----- Words

  predicate Lacks(text: string, word: string) {
    !Contains(text, word)
  }

  predicate AllLack(texts: seq<string>, word: string) {
    forall i | 0 <= i < |texts| :: Lacks(texts[i], word)
  }

  /** What a summary puts between the texts it takes over. */
  predicate Separates(c: char) {
    c in "():,|.=\n\U{2026}"
  }

  /** A word with no separator in it that starts with a character which only short constants hold, and ends
      with none of ` options`, which a summary puts after a text. */
  predicate Fits(word: string) {
    && word != "" && word[0] in "<RC" && (word[0] == '<' || |word| > 30)
    && (forall c <- word :: !Separates(c))
    && word[|word| - 1] !in " options"
  }

  /** Holds no character that a word may start with. */
  predicate Quiet(s: string) {
    '<' !in s && 'R' !in s && 'C' !in s
  }

  lemma PartLacks(s: string, i: nat, j: nat, word: string)
    requires i <= j <= |s| && Lacks(s, word)
    ensures Lacks(s[i..j], word)
  {
    forall k: nat ensures !OccursAt(s[i..j], word, k) {
      if k + |word| <= j - i {
        PartOfPart(s, i, j, k, k + |word|);
        assert !OccursAt(s, word, i + k);
      }
    }
    assert Find(s[i..j], word).None?;
  }

  lemma PartOfPart<T>(s: seq<T>, i: nat, j: nat, k: nat, l: nat)
    requires i <= j <= |s| && k <= l <= j - i
    ensures s[i..j][k..l] == s[i + k..i + l]
  {
    forall x | 0 <= x < l - k ensures s[i..j][k..l][x] == s[i + k..i + l][x] {
      assert s[i..j][k + x] == s[i + k + x];
    }
  }

  lemma JoinedBy(a: string, c: char, b: string, word: string)
    requires word != "" && c !in word && Lacks(a, word) && Lacks(b, word)
    ensures Lacks(a + [c] + b, word)
  {
    var s := a + [c] + b;
    forall j: nat ensures !OccursAt(s, word, j) {
      if j + |word| <= |a| {
        OccursInPrefix(a, [c] + b, word, j);
        assert s == a + ([c] + b);
      } else if j <= |a| {
        if j + |word| <= |s| { assert s[j..j + |word|][|a| - j] == c; }
      } else {
        OccursInSuffix(s, |a| + 1, word, j - |a| - 1);
        assert s[|a| + 1..] == b;
      }
    }
    assert Find(s, word).None?;
  }

  lemma JoinLacks(a: string, c: char, b: string, word: string)
    requires Fits(word) && Separates(c) && Lacks(a, word) && Lacks(b, word)
    ensures Lacks(a + [c] + b, word)
  {
    hide Lacks;
    JoinedBy(a, c, b, word);
  }

  lemma Begins(prefix: string, text: string, word: string)
    requires word != "" && word[0] !in prefix && Lacks(text, word)
    ensures Lacks(prefix + text, word)
  {
    var s := prefix + text;
    forall j: nat ensures !OccursAt(s, word, j) {
      if j < |prefix| {
        if j + |word| <= |s| { assert s[j..j + |word|][0] == prefix[j]; }
      } else {
        OccursInSuffix(s, |prefix|, word, j - |prefix|);
        assert s[|prefix|..] == text;
      }
    }
    assert Find(s, word).None?;
  }

  lemma PrefixLacks(prefix: string, text: string, word: string)
    requires Fits(word) && Quiet(prefix) && Lacks(text, word)
    ensures Lacks(prefix + text, word)
  {
    hide Lacks;
    Begins(prefix, text, word);
  }

  lemma QuietLacks(s: string, word: string)
    requires Fits(word) && Quiet(s)
    ensures Lacks(s, word)
  {
    LacksFirst(s, word);
  }

  lemma ShortLacks(s: string, word: string)
    requires Fits(word) && |s| <= 30 && '<' !in s
    ensures Lacks(s, word)
  {
    hide Contains;
    if word[0] == '<' { LacksFirst(s, word); } else { ShortHasNoTag(s, word); }
  }

  lemma EndLacks(text: string, suffix: string, word: string)
    requires word != "" && word[|word| - 1] !in suffix && Lacks(text, word)
    ensures Lacks(text + suffix, word)
  {
    var s := text + suffix;
    forall j: nat ensures !OccursAt(s, word, j) {
      if j + |word| <= |text| {
        OccursInPrefix(text, suffix, word, j);
      } else if j + |word| <= |s| {
        assert s[j..j + |word|][|word| - 1] == suffix[j + |word| - 1 - |text|];
      }
    }
    assert Find(s, word).None?;
  }

  lemma NothingLacks(word: string)
    requires Fits(word)
    ensures Lacks("", word)
  {
    ShortLacks("", word);
  }

  lemma SuffixLacks(text: string, c: char, word: string)
    requires Fits(word) && Separates(c) && Lacks(text, word)
    ensures Lacks(text + [c], word)
  {
    hide Lacks, Fits;
    NothingLacks(word);
    JoinLacks(text, c, "", word);
    assert text + [c] + "" == text + [c];
  }

  lemma {:induction false} ListLacks(parts: seq<string>, separator: string, word: string)
    requires Fits(word) && AllLack(parts, word) && (separator == ", " || separator == " | ")
    ensures Lacks(JoinWith(parts, separator), word)
  {
    if parts == [] {
      NothingLacks(word);
    } else if |parts| > 1 {
      ListLacks(parts[1..], separator, word);
      BetweenLacks(parts[0], separator, JoinWith(parts[1..], separator), word);
    }
  }

  lemma BetweenLacks(first: string, separator: string, later: string, word: string)
    requires Fits(word) && Lacks(first, word) && Lacks(later, word) && (separator == ", " || separator == " | ")
    ensures Lacks(first + separator + later, word)
  {
    EndIsNoSpace(word);
    hide Lacks, Fits;
    PrefixLacks(" ", later, word);
    if separator == ", " {
      JoinLacks(first, ',', " " + later, word);
      assert first + separator + later == first + [','] + (" " + later);
    } else {
      EndLacks(first, " ", word);
      JoinLacks(first + " ", '|', " " + later, word);
      assert first + separator + later == first + " " + ['|'] + (" " + later);
    }
  }

  lemma EndIsNoSpace(word: string)
    requires Fits(word)
    ensures word != "" && word[|word| - 1] !in " " && word[|word| - 1] !in " options"
  {
  }

  lemma TruncatedLacks(text: string, n: nat, word: string)
    requires Fits(word) && Lacks(text, word)
    ensures Lacks(Truncated(text, n), word)
  {
    hide Lacks, Fits;
    if |text| > n {
      PartLacks(text, 0, n, word);
      SuffixLacks(text[..n], '\U{2026}', word);
      assert text[0..n] == text[..n];
    }
  }

  // ----- The constant pieces of a summary

  lemma ToolPiece()
    ensures Quiet("tool_use ")
  {
  }

  lemma ResultPiece()
    ensures Quiet("tool_result ")
  {
  }

  lemma RequestPiece()
    ensures Quiet("user_input_request ")
  {
  }

  lemma ResponsePiece()
    ensures Quiet("user_input_response ")
  {
  }

  lemma SmallPieces()
    ensures Quiet("error ") && Quiet(" ") && Quiet(": ") && Quiet("  - ")
  {
  }

  lemma ToolPieces()
    ensures Quiet("tool_use ") && Quiet("tool_result ") && Quiet("error ") && Quiet(" ")
    ensures Quiet("user_input_request ") && Quiet("user_input_response ")
  {
    ToolPiece();
    ResultPiece();
    RequestPiece();
    ResponsePiece();
    SmallPieces();
    hide Quiet;
  }

  lemma ToolsPiece()
    ensures Quiet("- Tools mentioned: ")
  {
  }

  lemma FilesPiece()
    ensures Quiet("- Key files referenced: ")
  {
  }

  lemma RoleQuiet(role: Role)
    ensures Quiet(RoleText(role))
  {
  }

  lemma ShortRows()
    ensures '<' !in Title() && |Title()| <= 30 && '<' !in TimelineHeading() && |TimelineHeading()| <= 30
    ensures '<' !in "- Recent user requests:" && '<' !in "- Pending work:" && '<' !in "- Current work"
  {
  }

  // ----- Formatting

  lemma {:induction false} TrimEndPart(s: string)
    ensures |TrimEnd(s)| <= |s| && TrimEnd(s) == s[..|TrimEnd(s)|]
  {
    if s != "" && IsWhitespace(s[|s| - 1]) {
      TrimEndPart(s[..|s| - 1]);
    }
  }

  lemma {:induction false} TrimStartPart(s: string)
    ensures |TrimStart(s)| <= |s| && TrimStart(s) == s[|s| - |TrimStart(s)|..]
  {
    if s != "" && IsWhitespace(s[0]) {
      TrimStartPart(s[1..]);
    }
  }

  lemma TrimLack(s: string, word: string)
    requires Lacks(s, word)
    ensures Lacks(Trim(s), word) && Lacks(TrimEnd(s), word)
  {
    TrimStartPart(s);
    var t := TrimStart(s);
    TrimEndPart(t);
    TrimEndPart(s);
    hide Lacks, TrimStart, TrimEnd;
    PartLacks(s, |s| - |t|, |s|, word);
    assert s[|s| - |t|..|s|] == t && t[0..|TrimEnd(t)|] == TrimEnd(t) && s[0..|TrimEnd(s)|] == TrimEnd(s);
    PartLacks(t, 0, |TrimEnd(t)|, word);
    PartLacks(s, 0, |TrimEnd(s)|, word);
  }

  lemma RowsLack(s: string, word: string)
    requires Lacks(s, word)
    ensures AllLack(Rows.Split(s), word)
  {
    hide Lacks, Rows.Split;
    var rows := Rows.Split(s);
    forall r | 0 <= r < |rows| ensures Lacks(rows[r], word) {
      Rows.RowSlice(s, r);
      var k := Rows.RowOffset(rows, r);
      PartLacks(s, k, k + |rows[r]|, word);
    }
  }

  lemma LinesLack(s: string, word: string)
    requires Lacks(s, word)
    ensures AllLack(Lines(s), word)
  {
    hide Lacks, Rows.Split;
    RowsLack(s, word);
    var rows := Rows.Split(s);
    var n := |rows| - 1;
    forall i | 0 <= i < n ensures Lacks(StripCR(rows[..n][i]), word) {
      StripLack(rows[i], word);
    }
  }

  lemma StripLack(row: string, word: string)
    requires Lacks(row, word)
    ensures Lacks(StripCR(row), word)
  {
    hide Lacks;
    if EndsWith(row, "\r") {
      PartLacks(row, 0, |row| - 1, word);
      assert row[0..|row| - 1] == row[..|row| - 1];
    }
  }

  lemma {:induction false} CollapsedLack(lines: seq<string>, lastBlank: bool, word: string)
    requires Fits(word)
    requires AllLack(lines, word)
    ensures Lacks(Collapsed(lines, lastBlank), word)
    decreases |lines|
  {
    hide Lacks, Fits, IsBlank;
    NothingLacks(word);
    if lines != [] {
      CollapsedLack(lines[1..], true, word);
      CollapsedLack(lines[1..], IsBlank(lines[0]), word);
      JoinLacks(lines[0], '\n', Collapsed(lines[1..], IsBlank(lines[0])), word);
      assert lines[0] + ['\n'] == lines[0] + "\n";
    }
  }

  lemma CollapsedLinesLack(s: string, word: string)
    requires Fits(word)
    requires Lacks(s, word)
    ensures Lacks(Trim(Collapsed(Lines(s), false)), word)
  {
    hide Lacks, Trim, TrimEnd, Collapsed, Lines;
    LinesLack(s, word);
    CollapsedLack(Lines(s), false, word);
    TrimLack(Collapsed(Lines(s), false), word);
  }

  // ----- Messages

  predicate BlockLacks(block: ContentBlock, word: string) {
    match block
    case Text(text) => Lacks(text, word)
    case ToolUse(_, name, input) => Lacks(name, word) && Lacks(input, word)
    case ToolResult(_, name, output, _) => Lacks(name, word) && Lacks(output, word)
    case UserInputRequest(_, prompt, options, _) => Lacks(prompt, word) && AllLack(options, word)
    case UserInputResponse(_, content, _) => Lacks(content, word)
  }

  /** No text and no tool name of the message holds the word. */
  predicate MessageLacks(message: Message, word: string) {
    forall i | 0 <= i < |message.blocks| :: BlockLacks(message.blocks[i], word)
  }

  predicate MessagesLack(messages: seq<Message>, word: string) {
    forall i | 0 <= i < |messages| :: MessageLacks(messages[i], word)
  }

  lemma BlockTextLack(block: ContentBlock, word: string)
    requires Fits(word)
    requires BlockLacks(block, word)
    ensures Lacks(BlockText(block), word) && Lacks(SummarizeBlock(block), word) && Lacks(SearchedText(block), word)
  {
    ToolPieces();
    hide Lacks, Fits, Truncated, JoinWith, Quiet;
    match block {
      case Text(text) =>
      case ToolUse(_, name, input) =>
        PrefixLacks("tool_use ", name, word);
        JoinLacks("tool_use " + name, '(', input, word);
        SuffixLacks("tool_use " + name + ['('] + input, ')', word);
        assert "tool_use " + name + "(" + input + ")" == "tool_use " + name + ['('] + input + [')'];
      case ToolResult(_, name, output, isError) =>
        ResultLack(name, output, isError, word);
      case UserInputRequest(_, prompt, options, _) =>
        PrefixLacks("user_input_request ", prompt, word);
        RequestLack("user_input_request " + prompt, options, word);
      case UserInputResponse(_, content, _) =>
        PrefixLacks("user_input_response ", content, word);
    }
    TruncatedLacks(BlockText(block), 160, word);
  }

  lemma ResultLack(name: string, output: string, isError: bool, word: string)
    requires Fits(word)
    requires Lacks(name, word) && Lacks(output, word)
    ensures Lacks("tool_result " + name + ": " + (if isError then "error " else "") + output, word)
  {
    ToolPieces();
    hide Lacks, Fits, Quiet;
    PrefixLacks("tool_result ", name, word);
    PrefixLacks("error ", output, word);
    var rest := (if isError then "error " else "") + output;
    assert !isError ==> rest == output;
    PrefixLacks(" ", rest, word);
    JoinLacks("tool_result " + name, ':', " " + rest, word);
    assert "tool_result " + name + ": " + (if isError then "error " else "") + output
        == "tool_result " + name + [':'] + (" " + rest);
  }

  lemma RequestLack(text: string, options: seq<string>, word: string)
    requires Fits(word)
    requires Lacks(text, word) && AllLack(options, word)
    ensures Lacks(text + if options == [] then "" else " options=" + JoinWith(options, ", "), word)
  {
    hide Lacks, Fits, JoinWith;
    if options == [] {
      assert text + "" == text;
    } else {
      EndIsNoSpace(word);
      ListLacks(options, ", ", word);
      EndLacks(text, " options", word);
      JoinLacks(text + " options", '=', JoinWith(options, ", "), word);
      assert text + " options" + ['='] + JoinWith(options, ", ") == text + (" options=" + JoinWith(options, ", "));
    }
  }

  // ----- Summaries

  lemma {:induction false} FirstTextLack(blocks: seq<ContentBlock>, word: string)
    requires forall i | 0 <= i < |blocks| :: BlockLacks(blocks[i], word)
    ensures FirstTextBlock(blocks).Some? ==> Lacks(FirstTextBlock(blocks).value, word)
  {
    hide Lacks, IsBlank;
    if blocks != [] {
      assert BlockLacks(blocks[0], word);
      FirstTextLack(blocks[1..], word);
    }
  }

  lemma {:induction false} FirstTextsLack(messages: seq<Message>, word: string)
    requires MessagesLack(messages, word)
    ensures AllLack(FirstTexts(messages), word)
  {
    hide Lacks, FirstTextBlock, BlockLacks;
    if messages != [] {
      assert MessageLacks(messages[0], word);
      FirstTextLack(messages[0].blocks, word);
      FirstTextsLack(messages[1..], word);
    }
  }

  lemma {:induction false} FilteredLack(texts: seq<string>, keep: string -> bool, word: string)
    requires AllLack(texts, word)
    ensures AllLack(Filtered(texts, keep), word)
  {
    hide Lacks;
    if texts != [] {
      FilteredLack(texts[1..], keep, word);
    }
  }

  lemma {:induction false} OfRolePlain(messages: seq<Message>, role: Role, word: string)
    requires MessagesLack(messages, word)
    ensures MessagesLack(OfRole(messages, role), word)
  {
    hide MessageLacks;
    if messages != [] {
      OfRolePlain(messages[1..], role, word);
    }
  }

  lemma LastLack(texts: seq<string>, n: nat, max: nat, word: string)
    requires Fits(word)
    requires AllLack(texts, word)
    ensures AllLack(AllTruncated(LastOf(texts, n), max), word)
  {
    hide Lacks, Truncated;
    var last := LastOf(texts, n);
    forall i | 0 <= i < |last| ensures Lacks(Truncated(last[i], max), word) {
      TruncatedLacks(last[i], max, word);
    }
  }

  lemma {:induction false} BlocksPlain(messages: seq<Message>, word: string)
    requires MessagesLack(messages, word)
    ensures forall i | 0 <= i < |BlocksOf(messages)| :: BlockLacks(BlocksOf(messages)[i], word)
  {
    hide BlockLacks;
    if messages != [] {
      assert MessageLacks(messages[0], word);
      BlocksPlain(messages[1..], word);
    }
  }

  lemma {:induction false} ToolsLack(blocks: seq<ContentBlock>, word: string)
    requires forall i | 0 <= i < |blocks| :: BlockLacks(blocks[i], word)
    ensures AllLack(ToolsNamed(blocks), word)
  {
    hide Lacks;
    if blocks != [] {
      assert BlockLacks(blocks[0], word);
      ToolsLack(blocks[1..], word);
    }
  }

  lemma {:induction false} TrimmedLack(s: string, word: string)
    requires Lacks(s, word)
    ensures Lacks(TrimPunctuation(s), word)
    decreases |s|
  {
    hide Lacks, IsPunctuation;
    if s != "" && IsPunctuation(s[0]) {
      PartLacks(s, 1, |s|, word);
      assert s[1..|s|] == s[1..];
      TrimmedLack(s[1..], word);
    } else if s != "" && IsPunctuation(s[|s| - 1]) {
      PartLacks(s, 0, |s| - 1, word);
      assert s[0..|s| - 1] == s[..|s| - 1];
      TrimmedLack(s[..|s| - 1], word);
    }
  }

  lemma {:induction false} TokensLack(s: string, word: string)
    requires Lacks(s, word)
    ensures AllLack(Tokens(s), word)
    decreases |s|
  {
    hide Lacks, IsWhitespace, TokenEnd;
    if s != "" {
      PartLacks(s, 1, |s|, word);
      assert s[1..|s|] == s[1..];
      if IsWhitespace(s[0]) {
        TokensLack(s[1..], word);
      } else {
        var n := TokenEnd(s);
        PartLacks(s, 0, n, word);
        PartLacks(s, n, |s|, word);
        assert s[0..n] == s[..n] && s[n..|s|] == s[n..];
        TokensLack(s[n..], word);
      }
    }
  }

  lemma {:induction false} FilesLack(tokens: seq<string>, word: string)
    requires AllLack(tokens, word)
    ensures AllLack(FilesIn(tokens), word)
  {
    hide Lacks, TrimPunctuation, HasInterestingExtension;
    if tokens != [] {
      TrimmedLack(tokens[0], word);
      FilesLack(tokens[1..], word);
    }
  }

  lemma {:induction false} MentionedLack(blocks: seq<ContentBlock>, word: string)
    requires Fits(word)
    requires forall i | 0 <= i < |blocks| :: BlockLacks(blocks[i], word)
    ensures AllLack(FilesMentioned(blocks), word)
  {
    hide Lacks, BlockLacks, Tokens, FilesIn, SearchedText;
    if blocks != [] {
      BlockTextLack(blocks[0], word);
      TokensLack(SearchedText(blocks[0]), word);
      FilesLack(Tokens(SearchedText(blocks[0])), word);
      MentionedLack(blocks[1..], word);
    }
  }

  lemma SortedLack(texts: seq<string>, word: string)
    requires AllLack(texts, word)
    ensures AllLack(SortDedup(texts), word)
  {
    hide Lacks, SortDedup;
    SortDedupSorts(texts);
    forall i | 0 <= i < |SortDedup(texts)| ensures Lacks(SortDedup(texts)[i], word) {
      assert SortDedup(texts)[i] in texts;
    }
  }

  lemma {:induction false} DecimalQuiet(n: nat)
    ensures Quiet(Decimal(n))
  {
    if n >= 10 {
      DecimalQuiet(n / 10);
    }
  }

  lemma ScopeLack(messages: seq<Message>, word: string)
    requires Fits(word)
    ensures Lacks(ScopeRow(messages), word)
  {
    DecimalQuiet(|messages|);
    DecimalQuiet(|OfRole(messages, User)|);
    DecimalQuiet(|OfRole(messages, Assistant)|);
    DecimalQuiet(|OfRole(messages, Tool)|);
    ScopeStart();
    ScopeUser();
    ScopeRest();
    hide Decimal, OfRole, Lacks, Fits, Quiet;
    var n, u, a, t := Decimal(|messages|), Decimal(|OfRole(messages, User)|), Decimal(|OfRole(messages, Assistant)|),
                      Decimal(|OfRole(messages, Tool)|);
    QuietConcat("- Scope: ", n);
    QuietConcat("- Scope: " + n, " earlier messages ");
    QuietConcat("- Scope: " + n + " earlier messages ", "compacted (user=");
    var lead := "- Scope: " + n + " earlier messages " + "compacted (user=";
    QuietConcat(lead, u);
    QuietConcat(lead + u, ", assistant=");
    QuietConcat(lead + u + ", assistant=", a);
    QuietConcat(lead + u + ", assistant=" + a, ", tool=");
    QuietConcat(lead + u + ", assistant=" + a + ", tool=", t);
    QuietConcat(lead + u + ", assistant=" + a + ", tool=" + t, ").");
    QuietLacks(ScopeRow(messages), word);
  }

  lemma ScopeStart()
    ensures Quiet("- Scope: ")
  {
  }

  lemma ScopeUser()
    ensures Quiet(" earlier messages ") && Quiet("compacted (user=")
  {
  }

  lemma ScopeRest()
    ensures Quiet(", assistant=") && Quiet(", tool=") && Quiet(").")
  {
  }

  lemma QuietConcat(a: string, b: string)
    requires Quiet(a) && Quiet(b)
    ensures Quiet(a + b)
  {
  }

  lemma InlineLack(lead: string, texts: seq<string>, word: string)
    requires Fits(word)
    requires Quiet(lead) && AllLack(texts, word)
    ensures AllLack(InlineRow(lead, texts), word)
  {
    hide Lacks, Fits, Quiet, JoinWith;
    ListLacks(texts, ", ", word);
    PrefixLacks(lead, JoinWith(texts, ", "), word);
    SuffixLacks(lead + JoinWith(texts, ", "), '.', word);
  }

  lemma ListRowsLack(heading: string, texts: seq<string>, word: string)
    requires Fits(word)
    requires Lacks(heading, word) && AllLack(texts, word)
    ensures AllLack(ListRows(heading, texts), word)
  {
    SmallPieces();
    hide Lacks, Fits, Quiet;
    forall i | 0 <= i < |texts| ensures Lacks("  - " + texts[i], word) {
      PrefixLacks("  - ", texts[i], word);
    }
  }

  lemma TimelineLack(messages: seq<Message>, word: string)
    requires Fits(word)
    requires MessagesLack(messages, word)
    ensures AllLack(TimelineRows(messages), word)
  {
    hide Lacks, TimelineRow, MessageLacks;
    forall i | 0 <= i < |messages| ensures Lacks(TimelineRow(messages[i]), word) {
      TimelineRowLack(messages[i], word);
    }
  }

  lemma TimelineRowLack(message: Message, word: string)
    requires Fits(word)
    requires MessageLacks(message, word)
    ensures Lacks(TimelineRow(message), word)
  {
    SmallPieces();
    hide Lacks, Fits, Quiet, JoinWith, BlockLacks, SummarizeBlock, RoleText;
    var parts := BlockSummaries(message.blocks);
    forall i | 0 <= i < |parts| ensures Lacks(parts[i], word) {
      BlockTextLack(message.blocks[i], word);
    }
    ListLacks(parts, " | ", word);
    var lead := "  - " + RoleText(message.role) + ": ";
    RoleQuiet(message.role);
    QuietConcat("  - ", RoleText(message.role));
    QuietConcat("  - " + RoleText(message.role), ": ");
    PrefixLacks(lead, JoinWith(parts, " | "), word);
  }

  lemma SectionsLack(messages: seq<Message>, word: string)
    requires Fits(word)
    requires MessagesLack(messages, word)
    ensures AllLack(ToolNames(messages), word) && AllLack(RecentUserRequests(messages), word)
    ensures AllLack(PendingWork(messages), word) && AllLack(KeyFiles(messages), word)
    ensures CurrentWork(messages).Some? ==> Lacks(CurrentWork(messages).value, word)
  {
    hide Lacks, MessagesLack, BlockLacks, FirstTexts, Filtered, BlocksOf, ToolsNamed, FilesMentioned, SortDedup, OfRole,
         Truncated, MentionsWork, IsBlank, AllTruncated, LastOf;
    BlocksPlain(messages, word);
    ToolsLack(BlocksOf(messages), word);
    SortedLack(ToolsNamed(BlocksOf(messages)), word);
    MentionedLack(BlocksOf(messages), word);
    SortedLack(FilesMentioned(BlocksOf(messages)), word);
    OfRolePlain(messages, User, word);
    FirstTextsLack(OfRole(messages, User), word);
    LastLack(FirstTexts(OfRole(messages, User)), 3, 160, word);
    FirstTextsLack(messages, word);
    FilteredLack(FirstTexts(messages), MentionsWork, word);
    LastLack(Filtered(FirstTexts(messages), MentionsWork), 3, 160, word);
    var texts := Filtered(FirstTexts(messages), (text: string) => !IsBlank(text));
    FilteredLack(FirstTexts(messages), (text: string) => !IsBlank(text), word);
    if texts != [] {
      TruncatedLacks(texts[|texts| - 1], 200, word);
    }
  }

  lemma AllLackConcat(a: seq<string>, b: seq<string>, word: string)
    requires AllLack(a, word) && AllLack(b, word)
    ensures AllLack(a + b, word)
  {
    hide Lacks;
  }

  lemma SummaryRowsLack(messages: seq<Message>, word: string)
    requires Fits(word)
    requires MessagesLack(messages, word)
    ensures AllLack(SummaryRows(messages), word)
  {
    hide AllLack, Lacks, CurrentRow, ScopeRow, ToolNames, RecentUserRequests, PendingWork, KeyFiles, CurrentWork,
         TimelineRows, Title, TimelineHeading, InlineRow, ListRows, MessagesLack;
    SectionsLack(messages, word);
    HeadRowsLack(messages, word);
    InlineSections(ToolNames(messages), KeyFiles(messages), word);
    ListSections(RecentUserRequests(messages), PendingWork(messages), word);
    CurrentLack(CurrentWork(messages), word);
    TimelineSection(messages, word);
    var rows := [Title(), ScopeRow(messages)];
    var tools := InlineRow("- Tools mentioned: ", ToolNames(messages));
    var requests := ListRows("- Recent user requests:", RecentUserRequests(messages));
    var pending := ListRows("- Pending work:", PendingWork(messages));
    var files := InlineRow("- Key files referenced: ", KeyFiles(messages));
    var current := CurrentRow(CurrentWork(messages));
    AllLackConcat(rows, tools, word);
    AllLackConcat(rows + tools, requests, word);
    AllLackConcat(rows + tools + requests, pending, word);
    AllLackConcat(rows + tools + requests + pending, files, word);
    AllLackConcat(rows + tools + requests + pending + files, current, word);
    AllLackConcat(rows + tools + requests + pending + files + current,
                  [TimelineHeading()] + TimelineRows(messages), word);
  }

  lemma HeadRowsLack(messages: seq<Message>, word: string)
    requires Fits(word)
    ensures AllLack([Title(), ScopeRow(messages)], word)
  {
    ScopeLack(messages, word);
    ShortRows();
    hide Lacks, Fits, Title, ScopeRow;
    ShortLacks(Title(), word);
  }

  lemma InlineSections(tools: seq<string>, files: seq<string>, word: string)
    requires Fits(word)
    requires AllLack(tools, word) && AllLack(files, word)
    ensures AllLack(InlineRow("- Tools mentioned: ", tools), word)
    ensures AllLack(InlineRow("- Key files referenced: ", files), word)
  {
    ToolsPiece();
    FilesPiece();
    hide AllLack, InlineRow, Fits, Quiet;
    InlineLack("- Tools mentioned: ", tools, word);
    InlineLack("- Key files referenced: ", files, word);
  }

  lemma ListSections(requests: seq<string>, pending: seq<string>, word: string)
    requires Fits(word)
    requires AllLack(requests, word) && AllLack(pending, word)
    ensures AllLack(ListRows("- Recent user requests:", requests), word)
    ensures AllLack(ListRows("- Pending work:", pending), word)
  {
    ShortRows();
    hide AllLack, Lacks, Fits, ListRows;
    ShortLacks("- Recent user requests:", word);
    ShortLacks("- Pending work:", word);
    ListRowsLack("- Recent user requests:", requests, word);
    ListRowsLack("- Pending work:", pending, word);
  }

  lemma TimelineSection(messages: seq<Message>, word: string)
    requires Fits(word)
    requires MessagesLack(messages, word)
    ensures AllLack([TimelineHeading()] + TimelineRows(messages), word)
  {
    ShortRows();
    hide Lacks, Fits, TimelineHeading, TimelineRows, MessagesLack;
    ShortLacks(TimelineHeading(), word);
    TimelineLack(messages, word);
  }

  lemma CurrentLack(current: Option<string>, word: string)
    requires Fits(word)
    requires current.Some? ==> Lacks(current.value, word)
    ensures AllLack(CurrentRow(current), word)
  {
    ShortRows();
    SmallPieces();
    hide Lacks, Fits, Quiet;
    ShortLacks("- Current work", word);
    if current.Some? {
      PrefixLacks(" ", current.value, word);
      JoinLacks("- Current work", ':', " " + current.value, word);
      assert "- Current work" + [':'] + (" " + current.value) == "- Current work: " + current.value;
    }
  }

  /** What stands between the tags of a summary. */
  lemma InnerLacks(body: seq<string>, word: string)
    requires Fits(word) && body != [] && AllLack(body, word)
    ensures Lacks(Inner(body), word)
  {
    NoNewline(word);
    hide Rows.Join, Contains, Fits;
    TagInJoin(body, word);
    hide Lacks;
    SuffixLacks(Rows.Join(body), '\n', word);
    PrefixLacks("\n", Rows.Join(body) + ['\n'], word);
    assert "\n" + (Rows.Join(body) + ['\n']) == Inner(body);
  }

  lemma NoNewline(word: string)
    requires Fits(word)
    ensures Rows.Flat(word) && word != ""
  {
    assert Separates('\n');
  }

  /** A summary of rows without the word, and without tags, formats to a text without the word. */
  lemma FormattedLacks(body: seq<string>, word: string)
    requires Fits(word) && body != [] && AllTagFree(body) && AllLack(body, word)
    ensures Lacks(Format(Wrapped(body)), word)
  {
    var inner := Inner(body);
    FormatsInner(body);
    InnerLacks(body, word);
    SummaryPiece();
    hide Wrapped, Inner, Format, Trim, TrimEnd, Rows.Join, Lacks, Fits, Quiet, Collapsed, Lines, AllTagFree, AllLack;
    TrimLack(inner, word);
    PrefixLacks("Summary:\n", Trim(inner), word);
    CollapsedLinesLack("Summary:\n" + Trim(inner), word);
  }

  lemma SummaryPiece()
    ensures Quiet("Summary:\n") && Quiet("\n")
  {
  }

  lemma FormatsInner(body: seq<string>)
    requires body != [] && AllTagFree(body)
    ensures Format(Wrapped(body)) == Trim(Collapsed(Lines("Summary:\n" + Trim(Inner(body))), false))
  {
    var inner := Inner(body);
    WrappedHasNoAnalysis(body);
    WrappedExtracts(body);
    TagNames();
    WrappedText(body);
    assert StripTagBlock(Wrapped(body), "analysis") == Wrapped(body);
    hide Wrapped, Inner, ExtractTagBlock, StripTagBlock, Trim, TrimEnd, Rows.Join, Collapsed, Lines, AllTagFree;
    ReplaceWhole(Wrapped(body), "Summary:\n" + Trim(inner));
    assert "<summary>" + inner + "</summary>" == Wrapped(body);
  }
}
