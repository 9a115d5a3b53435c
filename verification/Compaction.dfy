/** Session compaction: older messages give way to one summary message while a ledger carries their
    token usage and turn count. */
module Compaction {
  import opened Options
  import opened Strings
  import opened SummaryText
  import opened SummaryLaws
  import opened SummaryMerge
  import Utf8Text

  const U32_MAX: nat := 0xFFFF_FFFF

  type u32 = n: nat | n <= U32_MAX

  datatype TokenUsage = TokenUsage(input: u32, output: u32, cacheCreation: u32, cacheRead: u32)

  datatype Role = System | User | Assistant | Tool

  datatype ContentBlock =
    | Text(text: string)
    | ToolUse(id: string, name: string, input: string)
    | ToolResult(toolUseId: string, toolName: string, output: string, isError: bool)
    | UserInputRequest(requestId: string, prompt: string, options: seq<string>, allowFreeform: bool)
    | UserInputResponse(requestId: string, content: string, selectedOption: Option<string>)

  datatype Message = Message(role: Role, blocks: seq<ContentBlock>, usage: Option<TokenUsage>)

  datatype AccountingStatus = Complete | PartialLegacyCompaction

  datatype Telemetry = Telemetry(compactedUsage: TokenUsage, compactedTurns: u32, status: AccountingStatus)

  datatype Session = Session(version: nat, messages: seq<Message>, telemetry: Option<Telemetry>)

  datatype Config = Config(preserveRecent: nat, maxEstimatedTokens: nat)

  datatype SummaryMode = Unchanged | NewSummary | MergedExisting

  datatype CompactionResult = CompactionResult(
    summary: string,
    formattedSummary: string,
    session: Session,
    removedCount: nat,
    mode: SummaryMode,
    tokensBefore: nat,
    tokensAfter: nat,
    status: AccountingStatus)

  // ----- Usage and turns

  const NO_USAGE := TokenUsage(0, 0, 0, 0)

  function Saturating(n: nat): u32 {
    if n <= U32_MAX then n else U32_MAX
  }

  /** u32 addition as a release build performs it. */
  function Wrapping(n: nat): u32 {
    n % (U32_MAX + 1)
  }

  function AddUsage(a: TokenUsage, b: TokenUsage): TokenUsage {
    TokenUsage(Saturating(a.input + b.input), Saturating(a.output + b.output),
               Saturating(a.cacheCreation + b.cacheCreation), Saturating(a.cacheRead + b.cacheRead))
  }

  /** `filter_map(usage).fold(default, add_usage)`, from the left. */
  function UsageFrom(start: TokenUsage, messages: seq<Message>): TokenUsage
    decreases |messages|
  {
    if messages == [] then start
    else
      UsageFrom(if messages[0].usage.Some? then AddUsage(start, messages[0].usage.value) else start, messages[1..])
  }

  function UsageOf(messages: seq<Message>): TokenUsage {
    UsageFrom(NO_USAGE, messages)
  }

  function CountTurns(messages: seq<Message>): nat {
    if messages == [] then 0 else (if messages[0].usage.Some? then 1 else 0) + CountTurns(messages[1..])
  }

  function TurnsOf(messages: seq<Message>): u32 {
    Saturating(CountTurns(messages))
  }

  // ----- Token estimates

  function OptionsLen(options: seq<string>): nat {
    if options == [] then 0 else Utf8Text.ByteLen(options[0]) + OptionsLen(options[1..])
  }

  function EstimateBlock(block: ContentBlock): nat {
    match block
    case Text(text) => Utf8Text.ByteLen(text) / 4 + 1
    case ToolUse(_, name, input) => (Utf8Text.ByteLen(name) + Utf8Text.ByteLen(input)) / 4 + 1
    case ToolResult(_, name, output, _) => (Utf8Text.ByteLen(name) + Utf8Text.ByteLen(output)) / 4 + 1
    case UserInputRequest(_, prompt, options, _) => (Utf8Text.ByteLen(prompt) + OptionsLen(options)) / 4 + 1
    case UserInputResponse(_, content, _) => Utf8Text.ByteLen(content) / 4 + 1
  }

  function EstimateBlocks(blocks: seq<ContentBlock>): nat {
    if blocks == [] then 0 else EstimateBlock(blocks[0]) + EstimateBlocks(blocks[1..])
  }

  function EstimateMessages(messages: seq<Message>): nat {
    if messages == [] then 0 else EstimateBlocks(messages[0].blocks) + EstimateMessages(messages[1..])
  }

  // ----- Recognising a summary message

  function FirstTextBlock(blocks: seq<ContentBlock>): Option<string> {
    if blocks == [] then None
    else match blocks[0]
      case Text(text) => if !IsBlank(text) then Some(text) else FirstTextBlock(blocks[1..])
      case UserInputResponse(_, content, _) => if !IsBlank(content) then Some(content) else FirstTextBlock(blocks[1..])
      case _ => FirstTextBlock(blocks[1..])
  }

  function ExtractExisting(message: Message): Option<string> {
    if message.role != System then None
    else
      var text := FirstTextBlock(message.blocks);
      if text.None? then None else ExtractText(text.value)
  }

  function ExistingSummary(messages: seq<Message>): Option<string> {
    if messages == [] then None else ExtractExisting(messages[0])
  }

  function PrefixLen(messages: seq<Message>): nat {
    if ExistingSummary(messages).Some? then 1 else 0
  }

  lemma PrefixInside(messages: seq<Message>)
    ensures PrefixLen(messages) <= |messages|
  {
    hide ExtractExisting;
  }

  function ShouldCompact(session: Session, config: Config): bool {
    PrefixInside(session.messages);
    var compactable := session.messages[PrefixLen(session.messages)..];
    |compactable| > config.preserveRecent && EstimateMessages(compactable) >= config.maxEstimatedTokens
  }

  function EffectiveStatus(session: Session): AccountingStatus {
    if session.telemetry.Some? then session.telemetry.value.status
    else if PrefixLen(session.messages) > 0 then PartialLegacyCompaction
    else Complete
  }

  // ----- Compacting

  function KeepFrom(session: Session, config: Config): nat {
    if |session.messages| >= config.preserveRecent then |session.messages| - config.preserveRecent else 0
  }

  /** The slices `compact_session` takes are in range whenever it takes them. */
  lemma SlicesInRange(session: Session, config: Config)
    requires ShouldCompact(session, config)
    ensures PrefixLen(session.messages) < KeepFrom(session, config) <= |session.messages|
    ensures |session.messages[KeepFrom(session, config)..]| == config.preserveRecent
  {
    hide ExistingSummary, EstimateMessages;
    PrefixInside(session.messages);
  }

  function SummaryMessage(summary: string, recentPreserved: bool): Message {
    Message(System, [Text(ContinuationText(summary, true, recentPreserved))], None)
  }

  function Removed(session: Session, config: Config): seq<Message>
    requires ShouldCompact(session, config)
  {
    SlicesInRange(session, config);
    session.messages[PrefixLen(session.messages)..KeepFrom(session, config)]
  }

  /** The summary a firing compaction writes; `summarize` is `summarize_messages`. */
  function NewSummaryText(session: Session, config: Config, summarize: seq<Message> -> string): string
    requires ShouldCompact(session, config)
  {
    Merge(ExistingSummary(session.messages), summarize(Removed(session, config)))
  }

  /** The session after `removed` has given way to a summary message before `preserved`. */
  function WithSummary(session: Session, removed: seq<Message>, preserved: seq<Message>, summary: string,
                       status: AccountingStatus): Session {
    var previous := if session.telemetry.Some? then session.telemetry.value else Telemetry(NO_USAGE, 0, Complete);
    Session(session.version,
            [SummaryMessage(summary, preserved != [])] + preserved,
            Some(Telemetry(AddUsage(previous.compactedUsage, UsageOf(removed)),
                           Wrapping(previous.compactedTurns + TurnsOf(removed)),
                           status)))
  }

  function Preserved(session: Session, config: Config): seq<Message>
    requires ShouldCompact(session, config)
  {
    SlicesInRange(session, config);
    session.messages[KeepFrom(session, config)..]
  }

  function Compact(session: Session, config: Config, summarize: seq<Message> -> string): CompactionResult {
    var before := EstimateMessages(session.messages);
    var status := EffectiveStatus(session);
    if !ShouldCompact(session, config) then
      CompactionResult("", "", session, 0, Unchanged, before, before, status)
    else
      var summary := NewSummaryText(session, config, summarize);
      var compacted := WithSummary(session, Removed(session, config), Preserved(session, config), summary, status);
      CompactionResult(summary, Format(summary), compacted, |Removed(session, config)|,
                       if ExistingSummary(session.messages).Some? then MergedExisting else NewSummary,
                       before, EstimateMessages(compacted.messages), status)
  }

  // ----- A compaction leaves a recognisable summary, and compacting again does nothing

  lemma SummaryMessageRecognised(summary: string, recentPreserved: bool)
    ensures ExtractExisting(SummaryMessage(summary, recentPreserved))
         == ExtractText(ContinuationText(summary, true, recentPreserved))
    ensures ExtractExisting(SummaryMessage(summary, recentPreserved)).Some?
  {
    hide Preamble, Format, NoteMarker, ResumeMarker, CutAt;
    var text := ContinuationText(summary, true, recentPreserved);
    PreambleShows(text);
    PrefixStripped(Preamble(), text[|Preamble()|..]);
    assert text == Preamble() + text[|Preamble()|..];
  }

  lemma PreambleShows(text: string)
    requires Preamble() <= text
    ensures !IsBlank(text)
  {
    PreambleOpens();
    hide Preamble;
    StartNotBlank(text);
  }

  lemma PreambleOpens()
    ensures Preamble() != "" && !IsWhitespace(Preamble()[0])
  {
    assert Preamble1() != "" && Preamble1()[0] == 'T';
    hide Preamble1, Preamble2, Preamble3, Preamble4, Preamble5;
  }

  lemma StartNotBlank(text: string)
    requires text != "" && !IsWhitespace(text[0])
    ensures !IsBlank(text)
  {
    FrontKept(text);
  }

  lemma {:induction false} FrontKept(text: string)
    requires text != "" && !IsWhitespace(text[0])
    ensures TrimEnd(text) != ""
  {
    if IsWhitespace(text[|text| - 1]) { FrontKept(text[..|text| - 1]); }
  }

  /** A firing compaction removes at least one message and leaves exactly one summary message, recognised
      as such, before the last `preserveRecent` messages verbatim. */
  lemma CompactionShape(session: Session, config: Config, summarize: seq<Message> -> string)
    requires ShouldCompact(session, config)
    ensures var r := Compact(session, config, summarize);
            && r.removedCount >= 1
            && |r.session.messages| == 1 + config.preserveRecent
            && ExistingSummary(r.session.messages).Some?
            && config.preserveRecent <= |session.messages|
            && r.session.messages[1..] == session.messages[|session.messages| - config.preserveRecent..]
            && |session.messages| == PrefixLen(session.messages) + r.removedCount + config.preserveRecent
  {
    hide ShouldCompact, Compact, SummaryMessage, EstimateMessages, NewSummaryText, ExtractExisting, UsageOf, TurnsOf,
         AddUsage, Wrapping, EffectiveStatus, Format, Removed, Preserved, PrefixLen;
    CompactedParts(session, config, summarize);
    PartSizes(session, config);
    SummaryMessageRecognised(NewSummaryText(session, config, summarize), Preserved(session, config) != []);
  }

  lemma PartSizes(session: Session, config: Config)
    requires ShouldCompact(session, config)
    ensures |Removed(session, config)| >= 1 && config.preserveRecent <= |session.messages|
    ensures Preserved(session, config) == session.messages[|session.messages| - config.preserveRecent..]
    ensures |session.messages| == PrefixLen(session.messages) + |Removed(session, config)| + config.preserveRecent
  {
    hide ShouldCompact, ExistingSummary;
    SlicesInRange(session, config);
  }

  /** The parts a firing compaction is made of. */
  lemma CompactedParts(session: Session, config: Config, summarize: seq<Message> -> string)
    requires ShouldCompact(session, config)
    ensures var r := Compact(session, config, summarize);
            && r.session == WithSummary(session, Removed(session, config), Preserved(session, config),
                                        NewSummaryText(session, config, summarize), EffectiveStatus(session))
            && r.removedCount == |Removed(session, config)|
  {
    hide ShouldCompact, WithSummary, EstimateMessages, NewSummaryText, Removed, Preserved, EffectiveStatus, Format;
  }

  /** Compacting with the same configuration right after a compaction, fired or not, changes nothing. */
  lemma CompactAgainChangesNothing(session: Session, config: Config, summarize: seq<Message> -> string)
    ensures var once := Compact(session, config, summarize).session;
            var again := Compact(once, config, summarize);
            again.session == once && again.removedCount == 0 && again.mode == Unchanged
            && again.tokensAfter == again.tokensBefore
  {
    hide WithSummary, EstimateMessages, NewSummaryText, ExtractExisting, Format, Removed, Preserved, EffectiveStatus;
    if ShouldCompact(session, config) {
      CompactionShape(session, config, summarize);
      ShortNeedsNoCompaction(Compact(session, config, summarize).session, config);
    }
  }

  lemma ShortNeedsNoCompaction(session: Session, config: Config)
    requires |session.messages| == 1 + config.preserveRecent && ExistingSummary(session.messages).Some?
    ensures !ShouldCompact(session, config)
  {
    hide ExistingSummary, EstimateMessages;
  }
}
