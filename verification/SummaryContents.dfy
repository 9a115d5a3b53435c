/** What a summary says about the messages it stands for: which of them are counted, quoted and listed. */
module SummaryContents {
  import opened Numbers
  import opened Options
  import opened Strings
  import opened Search
  import opened SummaryText
  import opened Compaction
  import opened CompactionFiring
  import opened Summarizer
  import opened EditorAnswers

  // ----- Counts

  /** Counting and listing go message by message. */
  lemma {:induction false} RolesConcat(a: seq<Message>, b: seq<Message>, role: Role)
    ensures OfRole(a + b, role) == OfRole(a, role) + OfRole(b, role)
  {
    hide OfRole;
    NoneOfRole(role);
    if a == [] {
      assert a + b == b && [] + OfRole(b, role) == OfRole(b, role);
    } else {
      var first, rest := a[0], a[1..];
      RolesConcat(rest, b, role);
      FirstOfRole(first, rest, role);
      FirstOfRole(first, rest + b, role);
      assert a == [first] + rest && a + b == [first] + (rest + b);
    }
  }

  lemma NoneOfRole(role: Role)
    ensures OfRole([], role) == []
  {
  }

  lemma FirstOfRole(first: Message, rest: seq<Message>, role: Role)
    ensures OfRole([first] + rest, role) == (if first.role == role then [first] else []) + OfRole(rest, role)
  {
    assert ([first] + rest)[1..] == rest;
  }

  lemma OneOfRole(m: Message, role: Role)
    ensures OfRole([m], role) == if m.role == role then [m] else []
  {
    assert [m][1..] == [];
  }

  /** Every message has one of the four roles, so the counts add up. */
  lemma {:induction false} CountsAddUp(messages: seq<Message>)
    ensures |OfRole(messages, User)| + |OfRole(messages, Assistant)| + |OfRole(messages, Tool)|
            + |OfRole(messages, System)| == |messages|
  {
    if messages != [] {
      CountsAddUp(messages[1..]);
    }
  }

  /** The row of counts for messages of which so many are the users', the assistant's and the tools'. */
  lemma CountsAreThoseOfRoles(messages: seq<Message>, user: nat, assistant: nat, tool: nat)
    requires user == CountOf(messages, User) && assistant == CountOf(messages, Assistant)
    requires tool == CountOf(messages, Tool)
    ensures ScopeRow(messages) ==
              "- Scope: " + Decimal(|messages|) + " earlier messages " + "compacted (user=" + Decimal(user)
              + ", assistant=" + Decimal(assistant) + ", tool=" + Decimal(tool) + ")."
  {
    hide OfRole, CountOf, Decimal;
    CountsRole(messages, User);
    CountsRole(messages, Assistant);
    CountsRole(messages, Tool);
  }

  /** How many messages have a role. */
  function CountOf(messages: seq<Message>, role: Role): nat {
    if messages == [] then 0
    else CountOf(messages[..|messages| - 1], role) + if messages[|messages| - 1].role == role then 1 else 0
  }

  lemma {:induction false} CountsRole(messages: seq<Message>, role: Role)
    ensures |OfRole(messages, role)| == CountOf(messages, role)
    decreases |messages|
  {
    if messages != [] {
      var n := |messages| - 1;
      assert messages == messages[..n] + [messages[n]];
      RolesConcat(messages[..n], [messages[n]], role);
      OneOfRole(messages[n], role);
      CountsRole(messages[..n], role);
    }
  }

  // ----- Quoted texts

  /** The message speaks: its first text that is not blank is this. */
  ghost predicate Says(message: Message, text: string) {
    exists k: nat :: FirstSpeaks(message.blocks, k, text)
  }

  ghost predicate SaysNothing(message: Message) {
    forall text :: !Says(message, text)
  }

  /** The quotable texts are those of the messages that speak, in order, one each. */
  lemma {:induction false} TextsConcat(a: seq<Message>, b: seq<Message>)
    ensures FirstTexts(a + b) == FirstTexts(a) + FirstTexts(b)
  {
    hide FirstTextBlock;
    if a == [] {
      assert a + b == b;
    } else {
      assert (a + b)[1..] == a[1..] + b;
      TextsConcat(a[1..], b);
    }
  }

  lemma OneText(message: Message, text: string)
    ensures Says(message, text) ==> FirstTexts([message]) == [text]
    ensures SaysNothing(message) ==> FirstTexts([message]) == []
  {
    FirstSays(message);
    hide FirstTextBlock;
    assert [message][1..] == [];
    if Says(message, text) {
      var k: nat :| FirstSpeaks(message.blocks, k, text);
      OneSpeaks(message.blocks, k, text);
    }
  }

  lemma FirstSays(message: Message)
    ensures FirstTextBlock(message.blocks).Some? ==> Says(message, FirstTextBlock(message.blocks).value)
    ensures FirstTextBlock(message.blocks).None? <==> SaysNothing(message)
  {
    hide FirstTextBlock, FirstSpeaks;
    FirstTextExactly(message.blocks);
    forall text: string, k: nat | FirstSpeaks(message.blocks, k, text)
      ensures FirstTextBlock(message.blocks) == Some(text)
    {
      OneSpeaks(message.blocks, k, text);
    }
  }

  /** A text that is too long is quoted up to the limit, with an ellipsis; any other is quoted whole. */
  predicate Quotes(quote: string, text: string, limit: nat) {
    if |text| <= limit then quote == text
    else |quote| == limit + 1 && quote[..limit] == text[..limit] && quote[limit] == '\U{2026}'
  }

  lemma TruncatedQuotes(text: string, limit: nat)
    ensures Quotes(Truncated(text, limit), text, limit)
  {
  }

  /** `quotes` are the last texts, at most `most`, in order and quoted. */
  predicate QuotesLast(quotes: seq<string>, texts: seq<string>, most: nat, limit: nat) {
    && |quotes| == (if |texts| < most then |texts| else most)
    && forall i | 0 <= i < |quotes| :: Quotes(quotes[i], texts[|texts| - |quotes| + i], limit)
  }

  lemma LastQuoted(texts: seq<string>, most: nat, limit: nat)
    ensures QuotesLast(AllTruncated(LastOf(texts, most), limit), texts, most, limit)
  {
    hide Truncated, Quotes;
    var quotes := AllTruncated(LastOf(texts, most), limit);
    forall i | 0 <= i < |quotes| ensures Quotes(quotes[i], texts[|texts| - |quotes| + i], limit) {
      TruncatedQuotes(texts[|texts| - |quotes| + i], limit);
    }
  }

  /** The requests listed are the last three that users made. */
  lemma RequestsAreTheLast(messages: seq<Message>)
    ensures QuotesLast(RecentUserRequests(messages), FirstTexts(OfRole(messages, User)), 3, 160)
  {
    hide FirstTexts, OfRole, AllTruncated, LastOf, QuotesLast;
    LastQuoted(FirstTexts(OfRole(messages, User)), 3, 160);
  }

  // ----- Pending work

  /** One of the words is in the text, in any case. */
  ghost predicate Mentions(text: string, word: string) {
    exists i: nat :: MentionedAt(text, word, i)
  }

  predicate MentionedAt(text: string, word: string, i: nat) {
    i + |word| <= |text| && EqIgnoreAsciiCase(text[i..i + |word|], word)
  }

  ghost predicate MentionsAny(text: string) {
    exists word <- ["todo", "next", "pending", "follow up", "remaining"] :: Mentions(text, word)
  }

  function Lowered(text: string): string {
    seq(|text|, i requires 0 <= i < |text| => LowerAscii(text[i]))
  }

  predicate IsLower(word: string) {
    forall i | 0 <= i < |word| :: LowerAscii(word[i]) == word[i]
  }

  lemma LoweredContains(text: string, word: string)
    requires IsLower(word)
    ensures Contains(Lowered(text), word) <==> Mentions(text, word)
  {
    hide LowerAscii;
    var lowered := Lowered(text);
    if Contains(lowered, word) {
      var i := Find(lowered, word).value;
      assert lowered[i..i + |word|] == word;
      forall j | 0 <= j < |word| ensures LowerAscii(text[i..i + |word|][j]) == LowerAscii(word[j]) {
        assert lowered[i..i + |word|][j] == lowered[i + j];
      }
      assert MentionedAt(text, word, i);
    }
    if Mentions(text, word) {
      var i: nat :| MentionedAt(text, word, i);
      forall j | 0 <= j < |word| ensures lowered[i..i + |word|][j] == word[j] {
        assert LowerAscii(text[i..i + |word|][j]) == LowerAscii(word[j]);
      }
      assert lowered[i..i + |word|] == word;
      assert OccursAt(lowered, word, i);
    }
  }

  /** A text is about pending work exactly when it mentions one of five words. */
  lemma MentionsExactly(text: string)
    ensures MentionsWork(text) <==> MentionsAny(text)
  {
    WorkWords();
    hide LowerAscii, Contains, IsLower, Mentions;
    LoweredContains(text, "todo");
    LoweredContains(text, "next");
    LoweredContains(text, "pending");
    LoweredContains(text, "follow up");
    LoweredContains(text, "remaining");
    LoweredIsUsed(text);
    var words := ["todo", "next", "pending", "follow up", "remaining"];
    assert words[0] in words && words[1] in words && words[2] in words && words[3] in words && words[4] in words;
  }

  lemma LoweredIsUsed(text: string)
    ensures var l := Lowered(text);
            MentionsWork(text) <==>
              Contains(l, "todo") || Contains(l, "next") || Contains(l, "pending") || Contains(l, "follow up")
              || Contains(l, "remaining")
  {
    hide LowerAscii, Contains;
  }

  lemma WorkWords()
    ensures IsLower("todo") && IsLower("next") && IsLower("pending") && IsLower("follow up") && IsLower("remaining")
  {
  }

  /** Choosing what satisfies a condition goes text by text. */
  lemma {:induction false} FilteredConcat(a: seq<string>, b: seq<string>, keep: string -> bool)
    ensures Filtered(a + b, keep) == Filtered(a, keep) + Filtered(b, keep)
  {
    if a == [] {
      assert a + b == b;
    } else {
      assert (a + b)[1..] == a[1..] + b;
      FilteredConcat(a[1..], b, keep);
    }
  }

  /** The texts that are about pending work. */
  function WorkTexts(texts: seq<string>): seq<string> {
    Filtered(texts, MentionsWork)
  }

  lemma OneWorkText(text: string)
    ensures WorkTexts([text]) == if MentionsWork(text) then [text] else []
    ensures MentionsWork(text) <==> MentionsAny(text)
  {
    MentionsExactly(text);
    hide MentionsAny;
    OneFiltered(text, MentionsWork);
  }

  lemma OneFiltered(text: string, keep: string -> bool)
    ensures Filtered([text], keep) == if keep(text) then [text] else []
  {
    assert [text][1..] == [];
  }

  /** The pending work listed are the last three texts that mention any. */
  lemma PendingAreTheLast(messages: seq<Message>)
    ensures QuotesLast(PendingWork(messages), WorkTexts(FirstTexts(messages)), 3, 160)
  {
    hide FirstTexts, MentionsWork, AllTruncated, LastOf, QuotesLast, Filtered;
    LastQuoted(WorkTexts(FirstTexts(messages)), 3, 160);
  }

  // ----- Current work

  lemma {:induction false} NoneBlank(messages: seq<Message>)
    ensures forall i | 0 <= i < |FirstTexts(messages)| :: !IsBlank(FirstTexts(messages)[i])
  {
    hide IsBlank;
    if messages != [] {
      NoneBlank(messages[1..]);
      NotBlank(messages[0].blocks);
    }
  }

  lemma {:induction false} NotBlank(blocks: seq<ContentBlock>)
    ensures FirstTextBlock(blocks).Some? ==> !IsBlank(FirstTextBlock(blocks).value)
  {
    hide IsBlank;
    if blocks != [] { NotBlank(blocks[1..]); }
  }

  lemma {:induction false} AllKept(texts: seq<string>, keep: string -> bool)
    requires forall i | 0 <= i < |texts| :: keep(texts[i])
    ensures Filtered(texts, keep) == texts
  {
    if texts != [] {
      AllKept(texts[1..], keep);
      assert texts == [texts[0]] + texts[1..];
    }
  }

  /** The current work is the latest text, if there is any. */
  lemma CurrentIsTheLatest(messages: seq<Message>)
    ensures var texts, current := FirstTexts(messages), CurrentWork(messages);
            if texts == [] then current.None? else current.Some? && Quotes(current.value, texts[|texts| - 1], 200)
  {
    hide FirstTexts, IsBlank, Truncated, Quotes;
    var texts := FirstTexts(messages);
    NoneBlank(messages);
    AllKept(texts, (text: string) => !IsBlank(text));
    if texts != [] { TruncatedQuotes(texts[|texts| - 1], 200); }
  }

  // ----- Files

  lemma {:induction false} LessTransitive(a: string, b: string, c: string)
    requires Less(a, b) && Less(b, c)
    ensures Less(a, c)
  {
    if a != "" && a[0] == b[0] && b[0] == c[0] { LessTransitive(a[1..], b[1..], c[1..]); }
  }

  lemma {:induction false} IncreasingApart(texts: seq<string>, i: nat, j: nat)
    requires Increasing(texts) && i < j < |texts|
    ensures Less(texts[i], texts[j])
    decreases j
  {
    hide Less;
    if i + 1 < j {
      IncreasingApart(texts, i, j - 1);
      LessTransitive(texts[i], texts[j - 1], texts[j]);
    } else {
      assert Less(texts[j - 1], texts[j]);
    }
  }

  /** The files listed are files mentioned, without repetition and in order, eight at most; any mentioned file
      that is not listed comes after eight that are. */
  lemma FilesAreTheFirst(messages: seq<Message>)
    ensures var files, mentioned := KeyFiles(messages), FilesMentioned(BlocksOf(messages));
            && Increasing(files) && |files| <= 8 && (forall f <- files :: f in mentioned)
            && forall f <- mentioned :: f in files || (|files| == 8 && forall g <- files :: Less(g, f))
  {
    hide FilesMentioned, BlocksOf, SortDedup, Less;
    var mentioned := FilesMentioned(BlocksOf(messages));
    var sorted, files := SortDedup(mentioned), KeyFiles(messages);
    SortDedupSorts(mentioned);
    forall f | f in mentioned && f !in files ensures |files| == 8 && forall g <- files :: Less(g, f) {
      var j :| 0 <= j < |sorted| && sorted[j] == f;
      ListedBefore(files, sorted, j);
      forall g | g in files ensures Less(g, f) {
        var i :| 0 <= i < |files| && files[i] == g;
        IncreasingApart(sorted, i, j);
      }
    }
  }

  lemma ListedBefore(files: seq<string>, sorted: seq<string>, j: nat)
    requires |files| <= |sorted| && files == sorted[..|files|] && j < |sorted| && sorted[j] !in files
    ensures j >= |files|
  {
  }

  /** A token names a file when, without punctuation around it, it has a slash and one of the extensions. */
  predicate Names(token: string, file: string) {
    TrimPunctuation(token) == file && '/' in file && HasInterestingExtension(file)
  }

  lemma {:induction false} FilesInExactly(tokens: seq<string>, file: string)
    ensures file in FilesIn(tokens) <==> exists t <- tokens :: Names(t, file)
  {
    hide TrimPunctuation, HasInterestingExtension;
    if tokens != [] {
      FilesInExactly(tokens[1..], file);
      var t := tokens[0];
      assert tokens == [t] + tokens[1..];
      assert file in FilesIn(tokens) <==> Names(t, file) || file in FilesIn(tokens[1..]);
    }
  }

  /** A token of the part of a block where files are looked for names the file. */
  ghost predicate NamesFile(block: ContentBlock, file: string) {
    exists text, t :: IsSearched(block, text) && t in Tokens(text) && Names(t, file)
  }

  /** The part of a block where files are looked for: its text, the input given to a tool, a tool's output, the
      prompt of a question, the content of an answer. */
  predicate IsSearched(block: ContentBlock, text: string) {
    || block == Text(text)
    || (block.ToolUse? && block.input == text)
    || (block.ToolResult? && block.output == text)
    || (block.UserInputRequest? && block.prompt == text)
    || (block.UserInputResponse? && block.content == text)
  }

  lemma SearchedIs(block: ContentBlock, text: string)
    ensures IsSearched(block, text) <==> text == SearchedText(block)
  {
  }

  lemma NamedInBlock(block: ContentBlock, file: string)
    ensures NamesFile(block, file) <==> file in FilesIn(Tokens(SearchedText(block)))
  {
    hide Names, Tokens, FilesIn;
    forall text ensures IsSearched(block, text) <==> text == SearchedText(block) {
      SearchedIs(block, text);
    }
    hide IsSearched, SearchedText;
    FilesInExactly(Tokens(SearchedText(block)), file);
  }

  lemma {:induction false} MentionedExactly(blocks: seq<ContentBlock>, file: string)
    ensures file in FilesMentioned(blocks) <==> exists b <- blocks :: NamesFile(b, file)
  {
    hide NamesFile, Tokens, FilesIn, SearchedText;
    if blocks != [] {
      MentionedExactly(blocks[1..], file);
      NamedInBlock(blocks[0], file);
      assert blocks == [blocks[0]] + blocks[1..];
      assert file in FilesMentioned(blocks) <==>
             file in FilesIn(Tokens(SearchedText(blocks[0]))) || file in FilesMentioned(blocks[1..]);
    }
  }

  // ----- Tools

  predicate InvolvesTool(block: ContentBlock, name: string) {
    || (block.ToolUse? && block.name == name)
    || (block.ToolResult? && block.toolName == name)
  }

  lemma {:induction false} ToolsNamedExactly(blocks: seq<ContentBlock>, name: string)
    ensures name in ToolsNamed(blocks) <==> exists b <- blocks :: InvolvesTool(b, name)
  {
    hide InvolvesTool, ToolsNamed;
    FirstTool(blocks, name);
    if blocks != [] {
      ToolsNamedExactly(blocks[1..], name);
      assert blocks == [blocks[0]] + blocks[1..];
    }
  }

  lemma FirstTool(blocks: seq<ContentBlock>, name: string)
    ensures name in ToolsNamed(blocks) <==>
              blocks != [] && (InvolvesTool(blocks[0], name) || name in ToolsNamed(blocks[1..]))
  {
  }

  /** The tools listed are those used or answering anywhere in the messages, in order and once each. */
  lemma ToolsAreThoseInvolved(messages: seq<Message>)
    ensures Increasing(ToolNames(messages))
    ensures forall name :: name in ToolNames(messages) <==> exists b <- BlocksOf(messages) :: InvolvesTool(b, name)
  {
    var named := ToolsNamed(BlocksOf(messages));
    SortDedupSorts(named);
    hide InvolvesTool, SortDedup, Increasing, BlocksOf, ToolsNamed;
    forall name: string
      ensures name in ToolNames(messages) <==> exists b <- BlocksOf(messages) :: InvolvesTool(b, name)
    {
      ToolsNamedExactly(BlocksOf(messages), name);
    }
  }

  predicate IsWord(word: string) {
    word != "" && forall i | 0 <= i < |word| :: !IsWhitespace(word[i])
  }

  lemma {:induction false} WordEnds(word: string, rest: string)
    requires (forall i | 0 <= i < |word| :: !IsWhitespace(word[i])) && (rest == "" || IsWhitespace(rest[0]))
    ensures TokenEnd(word + rest) == |word|
  {
    hide IsWhitespace;
    if word == "" {
      assert word + rest == rest;
    } else {
      assert (word + rest)[1..] == word[1..] + rest;
      WordEnds(word[1..], rest);
    }
  }

  /** A word and the white space after it. */
  datatype Spaced = Spaced(word: string, gap: string)

  predicate IsGap(gap: string) {
    forall i | 0 <= i < |gap| :: IsWhitespace(gap[i])
  }

  /** White space stands between any two words. */
  predicate WellSpaced(words: seq<Spaced>) {
    forall i | 0 <= i < |words| ::
      IsWord(words[i].word) && IsGap(words[i].gap) && (i < |words| - 1 ==> words[i].gap != "")
  }

  function SpacedText(words: seq<Spaced>): string {
    if words == [] then "" else words[0].word + (words[0].gap + SpacedText(words[1..]))
  }

  lemma {:induction false} GapSkipped(gap: string, rest: string)
    requires IsGap(gap)
    ensures Tokens(gap + rest) == Tokens(rest)
  {
    hide IsWhitespace;
    if gap == "" {
      assert gap + rest == rest;
    } else {
      assert (gap + rest)[1..] == gap[1..] + rest;
      GapSkipped(gap[1..], rest);
    }
  }

  /** Words with any white space before, between and after them are the tokens. */
  lemma {:induction false} WordsAreTokens(before: string, words: seq<Spaced>)
    requires IsGap(before) && WellSpaced(words)
    ensures |Tokens(before + SpacedText(words))| == |words|
    ensures forall i | 0 <= i < |words| :: Tokens(before + SpacedText(words))[i] == words[i].word
    decreases |words|
  {
    hide IsWhitespace;
    GapSkipped(before, SpacedText(words));
    if words != [] {
      var word, gap, later := words[0].word, words[0].gap, SpacedText(words[1..]);
      assert WellSpaced(words[1..]);
      WordsAreTokens(gap, words[1..]);
      if gap == "" {
        assert words[1..] == [] && gap + later == "";
      }
      WordEnds(word, gap + later);
      var all := word + (gap + later);
      assert all[|word|..] == gap + later && all[..|word|] == word;
      assert Tokens(all) == [word] + Tokens(gap + later);
    }
  }

  /** Punctuation around a token goes, and nothing else. */
  lemma {:induction false} PunctuationGoes(before: string, core: string, after: string)
    requires (forall i | 0 <= i < |before| :: before[i] in ",.:;)(\"'`")
    requires (forall i | 0 <= i < |after| :: after[i] in ",.:;)(\"'`")
    requires core != "" && core[0] !in ",.:;)(\"'`" && core[|core| - 1] !in ",.:;)(\"'`"
    ensures TrimPunctuation(before + core + after) == core
    decreases |before| + |after|
  {
    var s := before + core + after;
    if before != "" {
      assert s[1..] == before[1..] + core + after;
      PunctuationGoes(before[1..], core, after);
    } else if after != "" {
      assert s[0] == core[0] && s[..|s| - 1] == before + core + after[..|after| - 1];
      PunctuationGoes(before, core, after[..|after| - 1]);
    } else {
      assert s == core;
    }
  }

  lemma {:induction false} LastIs(before: string, c: char, after: string)
    requires c !in after
    ensures LastIndexOf(before + [c] + after, c) == |before|
    decreases |after|
  {
    var s := before + [c] + after;
    if after != "" {
      var n := |after| - 1;
      assert s[..|s| - 1] == before + [c] + after[..n] && s[|s| - 1] == after[n];
      assert after[n] in after;
      LastIs(before, c, after[..n]);
    }
  }

  /** The extension of a file name is what follows its last dot, and the ones of interest are six. */
  lemma ExtensionExactly(directory: string, stem: string, extension: string)
    requires stem != "" && '/' !in stem && '/' !in extension && '.' !in extension
    ensures var path := directory + "/" + stem + "." + extension;
            HasInterestingExtension(path) <==>
              exists known <- ["rs", "ts", "tsx", "js", "json", "md"] :: EqIgnoreAsciiCase(extension, known)
  {
    hide EqIgnoreAsciiCase;
    var name := stem + "." + extension;
    var path := directory + "/" + stem + "." + extension;
    assert path == directory + ['/'] + name && name == stem + ['.'] + extension;
    LastIs(directory, '/', name);
    LastIs(stem, '.', extension);
    assert path[|directory| + 1..] == name && name[|stem| + 1..] == extension;
    assert name != "." by { assert |name| > 1 || extension == ""; assert name[0] == stem[0]; assert |name| >= 2; }
    NotDots(stem, extension);
    assert FileName(path) == name;
  }

  lemma NotDots(stem: string, extension: string)
    requires stem != "" && '.' !in extension
    ensures stem + "." + extension == ".." ==> extension == ""
  {
    assert |stem + "." + extension| == |stem| + 1 + |extension|;
  }

  /** The name of a file is what follows the last slash; a slash or a dot on its own at the end does not count. */
  lemma FileNameExactly(directory: string, name: string)
    requires '/' !in name
    ensures FileName(directory + "/" + name) == if name == "" || name == "." then FileName(directory) else name
    ensures FileName(name) == if name == "." then "" else name
  {
    var path := directory + "/" + name;
    assert path == directory + ['/'] + name;
    LastIs(directory, '/', name);
    assert path[|directory| + 1..] == name && path[..|directory|] == directory;
    NoneIs(name, '/');
    assert name[0..] == name;
  }

  lemma {:induction false} NoneIs(s: string, c: char)
    requires c !in s
    ensures LastIndexOf(s, c) == -1
  {
    if s != "" {
      NoneIs(s[..|s| - 1], c);
    }
  }

  /** A name without a dot, or with none but the one it starts with, has no extension. */
  lemma NoExtension(directory: string, name: string)
    requires '/' !in name && name != "" && name != "." && '.' !in name[1..]
    ensures !HasInterestingExtension(directory + "/" + name)
  {
    hide FileName, LastIndexOf, HasInterestingExtension;
    FileNameExactly(directory, name);
    if name[0] == '.' {
      assert name == "" + ['.'] + name[1..];
      LastIs("", '.', name[1..]);
    } else {
      assert name == [name[0]] + name[1..];
      NoneIs(name, '.');
    }
    NoneKnown(directory + "/" + name);
  }

  lemma NoneKnown(candidate: string)
    requires Extension(FileName(candidate)) == ""
    ensures !HasInterestingExtension(candidate)
  {
    hide Extension, FileName;
  }

  // ----- One row a message

  /** Joining two lists puts the separator between them. */
  lemma {:induction false} JoinedLists(a: seq<string>, b: seq<string>, separator: string)
    requires a != [] && b != []
    ensures JoinWith(a + b, separator) == JoinWith(a, separator) + separator + JoinWith(b, separator)
  {
    if |a| == 1 {
      assert (a + b)[1..] == b;
    } else {
      assert (a + b)[1..] == a[1..] + b;
      JoinedLists(a[1..], b, separator);
      var x, y := a[0] + separator, JoinWith(a[1..], separator);
      assert x + (y + separator + JoinWith(b, separator)) == x + y + separator + JoinWith(b, separator);
    }
  }

  /** The row of a message shows its role and, between bars, a quote of each block: what a text says, what a tool
      was called with and what it gave, what was asked and what was answered. */
  lemma RowQuotesBlocks(message: Message, quotes: seq<string>)
    requires |quotes| == |message.blocks|
    requires forall i | 0 <= i < |quotes| :: QuotesBlock(quotes[i], message.blocks[i])
    ensures TimelineRow(message) ==
              (match message.role
               case User => "  - user: " case Assistant => "  - assistant: "
               case Tool => "  - tool: " case System => "  - system: ") + JoinWith(quotes, " | ")
  {
    hide JoinWith, QuotesBlock, SummarizeBlock;
    forall i | 0 <= i < |quotes| ensures quotes[i] == SummarizeBlock(message.blocks[i]) {
      BlockQuoted(quotes[i], message.blocks[i]);
    }
    assert quotes == BlockSummaries(message.blocks);
    RoleShown(message.role);
    hide RoleText;
  }

  lemma RoleShown(role: Role)
    ensures "  - " + RoleText(role) + ": " ==
              match role
              case User => "  - user: " case Assistant => "  - assistant: "
              case Tool => "  - tool: " case System => "  - system: "
  {
    match role
    case User =>
    case Assistant =>
    case Tool =>
    case System =>
  }

  predicate QuotesBlock(quote: string, block: ContentBlock) {
    match block
    case Text(text) => Quotes(quote, text, 160)
    case ToolUse(_, name, input) => Quotes(quote, "tool_use " + name + "(" + input + ")", 160)
    case ToolResult(_, name, output, isError) =>
      Quotes(quote, if isError then "tool_result " + name + ": error " + output
                    else "tool_result " + name + ": " + output, 160)
    case UserInputRequest(_, prompt, options, _) =>
      Quotes(quote, if options == [] then "user_input_request " + prompt
                    else "user_input_request " + prompt + " options=" + JoinWith(options, ", "), 160)
    case UserInputResponse(_, content, _) => Quotes(quote, "user_input_response " + content, 160)
  }

  lemma BlockQuoted(quote: string, block: ContentBlock)
    requires QuotesBlock(quote, block)
    ensures quote == SummarizeBlock(block)
  {
    hide Truncated, Quotes, JoinWith;
    QuoteIsTruncated(quote, BlockText(block));
    match block {
      case ToolResult(_, name, output, isError) =>
        assert "tool_result " + name + ": error " + output == "tool_result " + name + ": " + "error " + output;
        assert "tool_result " + name + ": " + "" + output == "tool_result " + name + ": " + output;
      case UserInputRequest(_, prompt, options, _) =>
        var list := JoinWith(options, ", ");
        assert "user_input_request " + prompt + " options=" + list
            == "user_input_request " + prompt + (" options=" + list);
        assert "user_input_request " + prompt + "" == "user_input_request " + prompt;
      case _ =>
    }
  }

  lemma QuoteIsTruncated(quote: string, text: string)
    ensures Quotes(quote, text, 160) ==> quote == Truncated(text, 160)
  {
    if Quotes(quote, text, 160) && |text| > 160 {
      assert quote == quote[..160] + [quote[160]];
    }
  }

  // ----- Where the rows are

  lemma SectionPlaces(messages: seq<Message>)
    ensures var rows, n := SummaryRows(messages), |messages|;
            && |rows| >= n + 3 && rows[0] == Title() && rows[1] == ScopeRow(messages)
            && rows[|rows| - n - 1] == TimelineHeading()
            && forall i | 0 <= i < n :: rows[|rows| - n + i] == TimelineRow(messages[i])
  {
    hide ScopeRow, ToolNames, RecentUserRequests, PendingWork, KeyFiles, CurrentWork, InlineRow, ListRows, CurrentRow,
         Title, TimelineHeading, TimelineRow;
  }

  predicate HeldAt(rows: seq<string>, part: seq<string>, i: nat) {
    i + |part| <= |rows| && rows[i..i + |part|] == part
  }

  lemma LastHeld(before: seq<string>, part: seq<string>)
    ensures HeldAt(before + part, part, |before|)
  {
  }

  lemma HeldOn(rows: seq<string>, more: seq<string>, part: seq<string>, i: nat)
    requires HeldAt(rows, part, i)
    ensures HeldAt(rows + more, part, i)
  {
    assert (rows + more)[i..i + |part|] == rows[i..i + |part|];
  }

  /** The rows that a list takes with its heading. */
  function Height(texts: seq<string>): nat {
    if texts == [] then 0 else 1 + |texts|
  }

  /** After the title and the scope come, each only if it has entries: the tools in a row, the requests and the
      pending work entry by entry under their headings, the files in a row, and the current work; and then the
      timeline. */
  lemma SectionsInPlace(messages: seq<Message>)
    ensures var rows, tools, files := SummaryRows(messages), ToolNames(messages), KeyFiles(messages);
            var requests, pending := RecentUserRequests(messages), PendingWork(messages);
            var current := CurrentWork(messages);
            var a := if tools == [] then 2 else 3;
            var b := a + Height(requests);
            var c := b + Height(pending);
            var d := if files == [] then c else c + 1;
            && |rows| == (if current.None? then d else d + 1) + 1 + |messages|
            && (tools != [] ==> HeldAt(rows, ["- Tools mentioned: " + JoinWith(tools, ", ") + "."], 2))
            && (requests != [] ==> HeldAt(rows, ["- Recent user requests:"] + Dashed(requests), a))
            && (pending != [] ==> HeldAt(rows, ["- Pending work:"] + Dashed(pending), b))
            && (files != [] ==> HeldAt(rows, ["- Key files referenced: " + JoinWith(files, ", ") + "."], c))
            && (current.Some? ==> HeldAt(rows, ["- Current work: " + current.value], d))
  {
    hide ScopeRow, ToolNames, RecentUserRequests, PendingWork, KeyFiles, CurrentWork, TimelineRow, Title,
         TimelineHeading, JoinWith, Dashed, HeldAt;
    var a, b := [Title(), ScopeRow(messages)], InlineRow("- Tools mentioned: ", ToolNames(messages));
    var c := ListRows("- Recent user requests:", RecentUserRequests(messages));
    var d := ListRows("- Pending work:", PendingWork(messages));
    var e := InlineRow("- Key files referenced: ", KeyFiles(messages));
    var f, g := CurrentRow(CurrentWork(messages)), [TimelineHeading()] + TimelineRows(messages);
    InlineShape("- Tools mentioned: ", ToolNames(messages));
    InlineShape("- Key files referenced: ", KeyFiles(messages));
    ListShape("- Recent user requests:", RecentUserRequests(messages));
    ListShape("- Pending work:", PendingWork(messages));
    CurrentShape(CurrentWork(messages));
    hide InlineRow, ListRows, CurrentRow;
    FiveParts(a, b, c, d, e, f, g);
  }

  lemma InlineShape(lead: string, texts: seq<string>)
    ensures InlineRow(lead, texts) == if texts == [] then [] else [lead + JoinWith(texts, ", ") + "."]
  {
  }

  lemma ListShape(heading: string, texts: seq<string>)
    ensures |ListRows(heading, texts)| == Height(texts)
    ensures texts != [] ==> ListRows(heading, texts) == [heading] + Dashed(texts)
  {
  }

  lemma CurrentShape(current: Option<string>)
    ensures CurrentRow(current) == if current.None? then [] else ["- Current work: " + current.value]
  {
  }

  lemma FiveParts(a: seq<string>, b: seq<string>, c: seq<string>, d: seq<string>, e: seq<string>, f: seq<string>,
                  g: seq<string>)
    ensures var rows := a + b + c + d + e + f + g;
            && HeldAt(rows, b, |a|) && HeldAt(rows, c, |a| + |b|) && HeldAt(rows, d, |a| + |b| + |c|)
            && HeldAt(rows, e, |a| + |b| + |c| + |d|) && HeldAt(rows, f, |a| + |b| + |c| + |d| + |e|)
  {
    hide HeldAt;
    var ab, abc := a + b, a + b + c;
    var abcd, abcde := abc + d, abc + d + e;
    LastHeld(a, b);
    HeldOn(ab, c, b, |a|);
    HeldOn(abc, d, b, |a|);
    HeldOn(abcd, e, b, |a|);
    LastHeld(ab, c);
    HeldOn(abc, d, c, |ab|);
    HeldOn(abcd, e, c, |ab|);
    LastHeld(abc, d);
    HeldOn(abcd, e, d, |abc|);
    LastHeld(abcd, e);
    LastHeld(abcde, f);
    HeldOn(abcde, f, b, |a|);
    HeldOn(abcde, f, c, |ab|);
    HeldOn(abcde, f, d, |abc|);
    HeldOn(abcde, f, e, |abcd|);
    HeldOn(abcde + f, g, b, |a|);
    HeldOn(abcde + f, g, c, |ab|);
    HeldOn(abcde + f, g, d, |abc|);
    HeldOn(abcde + f, g, e, |abcd|);
    HeldOn(abcde + f, g, f, |abcde|);
  }

  /** The entry of a list is its row. */
  lemma DashedRows(texts: seq<string>)
    ensures |Dashed(texts)| == |texts| && forall i | 0 <= i < |texts| :: Dashed(texts)[i] == "  - " + texts[i]
  {
  }
}
