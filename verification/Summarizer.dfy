/** The program's own summariser: what a compaction writes about the messages it removes. */
module Summarizer {
  import opened Numbers
  import opened Options
  import opened Strings
  import opened Search
  import opened SummaryText
  import opened SummaryMerge
  import opened Compaction

  // ----- Lists of strings

  function JoinWith(parts: seq<string>, separator: string): string {
    if parts == [] then ""
    else if |parts| == 1 then parts[0]
    else parts[0] + separator + JoinWith(parts[1..], separator)
  }

  function Truncated(content: string, maxChars: nat): string {
    if |content| <= maxChars then content else content[..maxChars] + "\U{2026}"
  }

  function AllTruncated(texts: seq<string>, maxChars: nat): seq<string> {
    seq(|texts|, i requires 0 <= i < |texts| => Truncated(texts[i], maxChars))
  }

  /** The last `n`, in order: reversing, taking `n` and reversing again. */
  function LastOf(texts: seq<string>, n: nat): seq<string> {
    texts[|texts| - Min(n, |texts|)..]
  }

  function Filtered(texts: seq<string>, keep: string -> bool): seq<string> {
    if texts == [] then [] else (if keep(texts[0]) then [texts[0]] else []) + Filtered(texts[1..], keep)
  }

  /** The order of strings, by their scalar values. */
  predicate Less(a: string, b: string) {
    b != "" && (a == "" || a[0] < b[0] || (a[0] == b[0] && Less(a[1..], b[1..])))
  }

  function Inserted(sorted: seq<string>, x: string): seq<string> {
    if sorted == [] || Less(x, sorted[0]) then [x] + sorted
    else if x == sorted[0] then sorted
    else [sorted[0]] + Inserted(sorted[1..], x)
  }

  /** `sort` and then `dedup`. */
  function SortDedup(texts: seq<string>): seq<string> {
    if texts == [] then [] else Inserted(SortDedup(texts[..|texts| - 1]), texts[|texts| - 1])
  }

  // ----- Messages

  function OfRole(messages: seq<Message>, role: Role): seq<Message> {
    if messages == [] then []
    else (if messages[0].role == role then [messages[0]] else []) + OfRole(messages[1..], role)
  }

  function BlocksOf(messages: seq<Message>): seq<ContentBlock> {
    if messages == [] then [] else messages[0].blocks + BlocksOf(messages[1..])
  }

  function ToolsNamed(blocks: seq<ContentBlock>): seq<string> {
    if blocks == [] then []
    else
      var rest := ToolsNamed(blocks[1..]);
      match blocks[0]
      case ToolUse(_, name, _) => [name] + rest
      case ToolResult(_, name, _, _) => [name] + rest
      case _ => rest
  }

  /** The first texts of the messages that have one. */
  function FirstTexts(messages: seq<Message>): seq<string> {
    if messages == [] then []
    else
      var text := FirstTextBlock(messages[0].blocks);
      (if text.Some? then [text.value] else []) + FirstTexts(messages[1..])
  }

  function BlockText(block: ContentBlock): string {
    match block
    case Text(text) => text
    case ToolUse(_, name, input) => "tool_use " + name + "(" + input + ")"
    case ToolResult(_, name, output, isError) =>
      "tool_result " + name + ": " + (if isError then "error " else "") + output
    case UserInputRequest(_, prompt, options, _) =>
      "user_input_request " + prompt + if options == [] then "" else " options=" + JoinWith(options, ", ")
    case UserInputResponse(_, content, _) => "user_input_response " + content
  }

  function SummarizeBlock(block: ContentBlock): string {
    Truncated(BlockText(block), 160)
  }

  function BlockSummaries(blocks: seq<ContentBlock>): seq<string> {
    seq(|blocks|, i requires 0 <= i < |blocks| => SummarizeBlock(blocks[i]))
  }

  predicate MentionsWork(text: string) {
    var lowered := seq(|text|, i requires 0 <= i < |text| => LowerAscii(text[i]));
    || Contains(lowered, "todo") || Contains(lowered, "next") || Contains(lowered, "pending")
    || Contains(lowered, "follow up") || Contains(lowered, "remaining")
  }

  // ----- File names in texts

  function TokenEnd(s: string): (n: nat)
    ensures n <= |s| && (s != "" && !IsWhitespace(s[0]) ==> n > 0)
  {
    if s == "" || IsWhitespace(s[0]) then 0 else 1 + TokenEnd(s[1..])
  }

  /** `split_whitespace`. */
  function Tokens(s: string): seq<string> {
    if s == "" then []
    else if IsWhitespace(s[0]) then Tokens(s[1..])
    else [s[..TokenEnd(s)]] + Tokens(s[TokenEnd(s)..])
  }

  predicate IsPunctuation(c: char) {
    c in ",.:;)(\"'`"
  }

  function TrimPunctuation(s: string): string
    decreases |s|
  {
    if s != "" && IsPunctuation(s[0]) then TrimPunctuation(s[1..])
    else if s != "" && IsPunctuation(s[|s| - 1]) then TrimPunctuation(s[..|s| - 1])
    else s
  }

  function LastIndexOf(s: string, c: char): (i: int)
    ensures -1 <= i < |s|
  {
    if s == "" then -1 else if s[|s| - 1] == c then |s| - 1 else LastIndexOf(s[..|s| - 1], c)
  }

  /** The last component of a path; empty components and those that are a single dot do not count. */
  function FileName(path: string): string
    decreases |path|
  {
    var slash := LastIndexOf(path, '/');
    var name := path[slash + 1..];
    if name != "" && name != "." then name else if slash >= 0 then FileName(path[..slash]) else ""
  }

  function Extension(name: string): string {
    var dot := LastIndexOf(name, '.');
    if dot <= 0 || name == ".." then "" else name[dot + 1..]
  }

  predicate HasInterestingExtension(candidate: string) {
    exists expected <- ["rs", "ts", "tsx", "js", "json", "md"] ::
      EqIgnoreAsciiCase(Extension(FileName(candidate)), expected)
  }

  function FilesIn(tokens: seq<string>): seq<string> {
    if tokens == [] then []
    else
      var candidate := TrimPunctuation(tokens[0]);
      (if '/' in candidate && HasInterestingExtension(candidate) then [candidate] else []) + FilesIn(tokens[1..])
  }

  function SearchedText(block: ContentBlock): string {
    match block
    case Text(text) => text
    case ToolUse(_, _, input) => input
    case ToolResult(_, _, output, _) => output
    case UserInputRequest(_, prompt, _, _) => prompt
    case UserInputResponse(_, content, _) => content
  }

  function FilesMentioned(blocks: seq<ContentBlock>): seq<string> {
    if blocks == [] then [] else FilesIn(Tokens(SearchedText(blocks[0]))) + FilesMentioned(blocks[1..])
  }

  // ----- The sections of a summary

  function ToolNames(messages: seq<Message>): seq<string> {
    SortDedup(ToolsNamed(BlocksOf(messages)))
  }

  function RecentUserRequests(messages: seq<Message>): seq<string> {
    AllTruncated(LastOf(FirstTexts(OfRole(messages, User)), 3), 160)
  }

  function PendingWork(messages: seq<Message>): seq<string> {
    AllTruncated(LastOf(Filtered(FirstTexts(messages), MentionsWork), 3), 160)
  }

  function KeyFiles(messages: seq<Message>): seq<string> {
    var files := SortDedup(FilesMentioned(BlocksOf(messages)));
    files[..Min(8, |files|)]
  }

  /** The latest text, if any; blank ones are no first texts. */
  function CurrentWork(messages: seq<Message>): Option<string> {
    var texts := Filtered(FirstTexts(messages), (text: string) => !IsBlank(text));
    if texts == [] then None else Some(Truncated(texts[|texts| - 1], 200))
  }

  function ScopeRow(messages: seq<Message>): string {
    "- Scope: " + Decimal(|messages|) + " earlier messages " + "compacted (user=" + Decimal(|OfRole(messages, User)|)
    + ", assistant=" + Decimal(|OfRole(messages, Assistant)|) + ", tool=" + Decimal(|OfRole(messages, Tool)|) + ")."
  }

  function Dashed(texts: seq<string>): seq<string> {
    seq(|texts|, i requires 0 <= i < |texts| => "  - " + texts[i])
  }

  function RoleText(role: Role): string {
    match role
    case System => "system"
    case User => "user"
    case Assistant => "assistant"
    case Tool => "tool"
  }

  function TimelineRow(message: Message): string {
    "  - " + RoleText(message.role) + ": " + JoinWith(BlockSummaries(message.blocks), " | ")
  }

  function TimelineRows(messages: seq<Message>): seq<string> {
    seq(|messages|, i requires 0 <= i < |messages| => TimelineRow(messages[i]))
  }

  function ListRows(heading: string, texts: seq<string>): seq<string> {
    if texts == [] then [] else [heading] + Dashed(texts)
  }

  function InlineRow(lead: string, texts: seq<string>): seq<string> {
    if texts == [] then [] else [lead + JoinWith(texts, ", ") + "."]
  }

  function CurrentRow(current: Option<string>): seq<string> {
    if current.None? then [] else ["- Current work: " + current.value]
  }

  function SummaryRows(messages: seq<Message>): seq<string> {
    [Title(), ScopeRow(messages)]
    + InlineRow("- Tools mentioned: ", ToolNames(messages))
    + ListRows("- Recent user requests:", RecentUserRequests(messages))
    + ListRows("- Pending work:", PendingWork(messages))
    + InlineRow("- Key files referenced: ", KeyFiles(messages))
    + CurrentRow(CurrentWork(messages))
    + ([TimelineHeading()] + TimelineRows(messages))
  }

  function Summarize(messages: seq<Message>): string {
    Wrapped(SummaryRows(messages))
  }

  method SummarizeMessages(messages: seq<Message>) returns (summary: string)
    ensures summary == Summarize(messages)
  {
    hide ScopeRow, ToolNames, RecentUserRequests, PendingWork, KeyFiles, CurrentWork, TimelineRow, Title,
         TimelineHeading, SummaryOpen, SummaryClose, JoinWith, Rows.Join;
    var lines := [Title(), ScopeRow(messages)];
    var toolNames := ToolNames(messages);
    if toolNames != [] {
      lines := lines + ["- Tools mentioned: " + JoinWith(toolNames, ", ") + "."];
    }
    assert lines == [Title(), ScopeRow(messages)] + InlineRow("- Tools mentioned: ", toolNames);
    var requests := RecentUserRequests(messages);
    lines := PushList(lines, "- Recent user requests:", requests);
    var pending := PendingWork(messages);
    lines := PushList(lines, "- Pending work:", pending);
    var keyFiles := KeyFiles(messages);
    ghost var before := lines;
    if keyFiles != [] {
      lines := lines + ["- Key files referenced: " + JoinWith(keyFiles, ", ") + "."];
    }
    assert lines == before + InlineRow("- Key files referenced: ", keyFiles);
    before := lines;
    var current := CurrentWork(messages);
    if current.Some? {
      lines := lines + ["- Current work: " + current.value];
    }
    assert lines == before + CurrentRow(current);
    before := lines;
    lines := lines + [TimelineHeading()];
    for i := 0 to |messages|
      invariant lines == before + ([TimelineHeading()] + TimelineRows(messages[..i]))
    {
      lines := lines + [TimelineRow(messages[i])];
      assert TimelineRows(messages[..i + 1]) == TimelineRows(messages[..i]) + [TimelineRow(messages[i])];
    }
    assert messages[..|messages|] == messages;
    return Rows.Join([SummaryOpen()] + lines + [SummaryClose()]);
  }

  method PushList(lines: seq<string>, heading: string, texts: seq<string>) returns (longer: seq<string>)
    ensures longer == lines + ListRows(heading, texts)
  {
    longer := lines;
    if texts != [] {
      longer := longer + [heading];
      longer := longer + Dashed(texts);
    }
  }

  // ----- Sorting

  predicate Increasing(texts: seq<string>) {
    forall i :: 0 < i < |texts| ==> Less(texts[i - 1], texts[i])
  }

  lemma {:induction false} Trichotomy(a: string, b: string)
    ensures Less(a, b) || a == b || Less(b, a)
    ensures !(Less(a, b) && Less(b, a)) && !Less(a, a)
  {
    if a != "" && b != "" {
      Trichotomy(a[1..], b[1..]);
      assert a == [a[0]] + a[1..] && b == [b[0]] + b[1..];
    }
    if a != "" {
      Irreflexive(a);
    }
  }

  lemma {:induction false} Irreflexive(a: string)
    ensures !Less(a, a)
  {
    if a != "" {
      Irreflexive(a[1..]);
    }
  }

  lemma {:induction false} InsertedSorts(sorted: seq<string>, x: string)
    requires Increasing(sorted)
    ensures Increasing(Inserted(sorted, x)) && Inserted(sorted, x) != []
    ensures Inserted(sorted, x)[0] == x || (sorted != [] && Inserted(sorted, x)[0] == sorted[0])
    ensures forall y :: y in Inserted(sorted, x) <==> y == x || y in sorted
  {
    hide Less;
    if sorted != [] && !Less(x, sorted[0]) && x != sorted[0] {
      Trichotomy(x, sorted[0]);
      assert Increasing(sorted[1..]);
      InsertedSorts(sorted[1..], x);
      assert sorted == [sorted[0]] + sorted[1..];
      assert |sorted| > 1 ==> Less(sorted[0], sorted[1]);
    }
  }

  /** Sorting and deleting repetitions gives the strictly increasing list of the same strings. */
  lemma {:induction false} SortDedupSorts(texts: seq<string>)
    ensures Increasing(SortDedup(texts))
    ensures forall y :: y in SortDedup(texts) <==> y in texts
  {
    hide Inserted, Increasing;
    if texts == [] {
      assert Increasing([]) by { NothingIncreases(); }
    } else {
      var front, x := texts[..|texts| - 1], texts[|texts| - 1];
      SortDedupSorts(front);
      InsertedSorts(SortDedup(front), x);
      assert texts == front + [x];
    }
  }

  lemma NothingIncreases()
    ensures Increasing([])
  {
  }
}
