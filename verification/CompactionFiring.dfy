/** When a compaction fires and what it reports, in counts and bytes: which first message is taken for a summary,
    how the token estimate follows the encoded texts, and what the threshold means. */
module CompactionFiring {
  import opened Options
  import opened Strings
  import opened Bytes
  import opened SummaryText
  import opened SummaryLaws
  import opened Compaction
  import opened CompactionRuns
  import opened Summarizer
  import Utf8Text

  // ----- The recognised head

  /** The text of a block that may carry a summary. */
  predicate Speaks(block: ContentBlock, text: string) {
    && (block == Text(text) || (block.UserInputResponse? && block.content == text))
    && exists c <- text :: !IsWhitespace(c)
  }

  /** The first block that speaks says `text`. */
  predicate FirstSpeaks(blocks: seq<ContentBlock>, i: nat, text: string) {
    && i < |blocks| && Speaks(blocks[i], text)
    && forall j | 0 <= j < i :: Silent(blocks[j])
  }

  predicate Silent(block: ContentBlock) {
    && (block.Text? ==> forall c <- block.text :: IsWhitespace(c))
    && (block.UserInputResponse? ==> forall c <- block.content :: IsWhitespace(c))
  }

  lemma {:induction false} BlankExactly(s: string)
    ensures IsBlank(s) <==> forall c <- s :: IsWhitespace(c)
  {
    hide IsWhitespace;
    if s == "" {
    } else if IsWhitespace(s[0]) {
      BlankExactly(s[1..]);
      assert s == [s[0]] + s[1..];
    } else {
      assert s[0] in s;
      FrontShows(s);
    }
  }

  lemma {:induction false} FrontShows(s: string)
    requires s != "" && !IsWhitespace(s[0])
    ensures TrimEnd(s) != "" && TrimStart(s) == s
  {
    hide IsWhitespace;
    if IsWhitespace(s[|s| - 1]) { FrontShows(s[..|s| - 1]); }
  }

  lemma {:induction false} FirstTextExactly(blocks: seq<ContentBlock>)
    ensures FirstTextBlock(blocks).None? <==> forall i | 0 <= i < |blocks| :: Silent(blocks[i])
    ensures FirstTextBlock(blocks).Some? ==> exists i: nat :: FirstSpeaks(blocks, i, FirstTextBlock(blocks).value)
  {
    hide IsWhitespace, IsBlank;
    if blocks != [] {
      var first, rest := blocks[0], blocks[1..];
      FirstTextExactly(rest);
      if first.Text? { BlankExactly(first.text); }
      if first.UserInputResponse? { BlankExactly(first.content); }
      assert forall i | 0 < i < |blocks| :: blocks[i] == rest[i - 1];
      if FirstTextBlock(blocks).Some? {
        if Silent(first) {
          var i: nat :| FirstSpeaks(rest, i, FirstTextBlock(rest).value);
          assert FirstSpeaks(blocks, i + 1, FirstTextBlock(blocks).value);
        } else {
          assert FirstSpeaks(blocks, 0, FirstTextBlock(blocks).value);
        }
      }
    }
  }

  lemma OneSpeaks(blocks: seq<ContentBlock>, i: nat, text: string)
    requires FirstSpeaks(blocks, i, text)
    ensures FirstTextBlock(blocks) == Some(text)
  {
    FirstTextExactly(blocks);
    hide FirstTextBlock, IsWhitespace;
    assert !Silent(blocks[i]) by { SpeakerNotSilent(blocks[i], text); }
    var k: nat :| FirstSpeaks(blocks, k, FirstTextBlock(blocks).value);
    SpeakerNotSilent(blocks[k], FirstTextBlock(blocks).value);
  }

  lemma SpeakerNotSilent(block: ContentBlock, text: string)
    requires Speaks(block, text)
    ensures !Silent(block)
  {
    hide IsWhitespace;
  }

  /** A session's head is a summary exactly when its first message is a system message whose first text that is
      not blank starts with the preamble. */
  lemma RecognisedExactly(messages: seq<Message>)
    ensures ExistingSummary(messages).Some? <==>
              && messages != [] && messages[0].role == System
              && exists i: nat, text :: FirstSpeaks(messages[0].blocks, i, text) && Preamble() <= text
  {
    hide FirstTextBlock, Preamble, CutAt, Trim, NoteMarker, ResumeMarker;
    if messages != [] {
      var blocks := messages[0].blocks;
      FirstTextExactly(blocks);
      forall i: nat, text | FirstSpeaks(blocks, i, text) ensures FirstTextBlock(blocks) == Some(text) {
        OneSpeaks(blocks, i, text);
      }
    }
  }

  // ----- The estimate

  function Concat(texts: seq<string>): string {
    if texts == [] then "" else texts[0] + Concat(texts[1..])
  }

  /** What of a block counts for the estimate. */
  function CountedText(block: ContentBlock): string {
    match block
    case Text(text) => text
    case ToolUse(_, name, input) => name + input
    case ToolResult(_, name, output, _) => name + output
    case UserInputRequest(_, prompt, options, _) => prompt + Concat(options)
    case UserInputResponse(_, content, _) => content
  }

  function AllCounted(blocks: seq<ContentBlock>): string {
    if blocks == [] then "" else CountedText(blocks[0]) + AllCounted(blocks[1..])
  }

  /** The bytes of the encoded texts of some messages. */
  function CountedBytes(messages: seq<Message>): nat {
    |Encode(AllCounted(BlocksOf(messages)))|
  }

  lemma {:induction false} OptionsCounted(options: seq<string>)
    ensures OptionsLen(options) == |Encode(Concat(options))|
  {
    if options != [] {
      OptionsCounted(options[1..]);
      EncodeConcat(options[0], Concat(options[1..]));
      Utf8Text.EncodedLength(options[0]);
    }
  }

  /** A block counts for the one number of tokens whose fourfold lies between one and four above its bytes. */
  lemma BlockEstimate(block: ContentBlock)
    ensures var bytes := |Encode(CountedText(block))|; bytes + 1 <= 4 * EstimateBlock(block) <= bytes + 4
  {
    hide Utf8Text.ByteLen, Encode, OptionsLen, Concat;
    match block {
      case Text(text) => Utf8Text.EncodedLength(text);
      case ToolUse(_, name, input) =>
        EncodeConcat(name, input);
        Utf8Text.EncodedLength(name);
        Utf8Text.EncodedLength(input);
      case ToolResult(_, name, output, _) =>
        EncodeConcat(name, output);
        Utf8Text.EncodedLength(name);
        Utf8Text.EncodedLength(output);
      case UserInputRequest(_, prompt, options, _) =>
        EncodeConcat(prompt, Concat(options));
        Utf8Text.EncodedLength(prompt);
        OptionsCounted(options);
      case UserInputResponse(_, content, _) => Utf8Text.EncodedLength(content);
    }
  }

  lemma {:induction false} BlocksConcat(a: seq<ContentBlock>, b: seq<ContentBlock>)
    ensures EstimateBlocks(a + b) == EstimateBlocks(a) + EstimateBlocks(b)
  {
    hide EstimateBlock;
    if a == [] {
      assert a + b == b;
    } else {
      assert (a + b)[1..] == a[1..] + b;
      BlocksConcat(a[1..], b);
    }
  }

  lemma {:induction false} EstimateOfBlocks(messages: seq<Message>)
    ensures EstimateMessages(messages) == EstimateBlocks(BlocksOf(messages))
  {
    hide EstimateBlocks;
    if messages == [] {
      assert EstimateBlocks([]) == 0 by { NoBlocks(); }
    } else {
      EstimateOfBlocks(messages[1..]);
      BlocksConcat(messages[0].blocks, BlocksOf(messages[1..]));
    }
  }

  lemma NoBlocks()
    ensures EstimateBlocks([]) == 0
  {
  }

  lemma {:induction false} BlocksEstimate(blocks: seq<ContentBlock>)
    ensures var bytes := |Encode(AllCounted(blocks))|;
            && EstimateBlocks(blocks) >= |blocks|
            && bytes + |blocks| <= 4 * EstimateBlocks(blocks) <= bytes + 4 * |blocks|
  {
    hide EstimateBlock, CountedText;
    if blocks != [] {
      hide Encode;
      BlocksEstimate(blocks[1..]);
      BlockEstimate(blocks[0]);
      EncodeConcat(CountedText(blocks[0]), AllCounted(blocks[1..]));
    }
  }

  /** The estimate of any messages lies within these bounds; for a single block they leave one number. */
  lemma EstimateBounds(messages: seq<Message>)
    ensures var bytes, blocks, estimate := CountedBytes(messages), |BlocksOf(messages)|, EstimateMessages(messages);
            && estimate >= blocks
            && bytes + blocks <= 4 * estimate <= bytes + 4 * blocks
  {
    hide Encode, AllCounted, EstimateBlocks, EstimateMessages;
    EstimateOfBlocks(messages);
    BlocksEstimate(BlocksOf(messages));
  }

  /** The estimates of two lists of messages add up. */
  lemma {:induction false} EstimateConcat(a: seq<Message>, b: seq<Message>)
    ensures EstimateMessages(a + b) == EstimateMessages(a) + EstimateMessages(b)
  {
    hide EstimateBlocks;
    if a == [] {
      assert a + b == b;
    } else {
      assert (a + b)[1..] == a[1..] + b;
      EstimateConcat(a[1..], b);
    }
  }

  // ----- Firing

  /** The messages that may be compacted: all but a head that is a summary. */
  function Rest(messages: seq<Message>): seq<Message> {
    if ExistingSummary(messages).Some? && messages != [] then messages[1..] else messages
  }

  /** For every session and configuration: a compaction removes something exactly when the messages after a
      recognised head are more than those to keep and their estimate reaches the threshold. It then says whether
      it has merged; otherwise it hands back the session as it is. */
  lemma FiresExactly(session: Session, config: Config, summarize: seq<Message> -> string)
    ensures var r, rest := Compact(session, config, summarize), Rest(session.messages);
            && (r.removedCount > 0 <==>
                  |rest| > config.preserveRecent && EstimateMessages(rest) >= config.maxEstimatedTokens)
            && (r.removedCount > 0 ==> r.removedCount == |rest| - config.preserveRecent)
            && (r.removedCount == 0 ==> r.session == session && r.mode == Unchanged)
            && (r.removedCount > 0 ==>
                  r.mode == if ExistingSummary(session.messages).Some? then MergedExisting else NewSummary)
  {
    hide EstimateMessages, WithSummary, NewSummaryText, ExtractExisting, Format;
    PrefixInside(session.messages);
    assert session.messages[0..] == session.messages;
    if ShouldCompact(session, config) {
      PartSizes(session, config);
    }
  }

  /** Below the threshold nothing happens, however many messages there are: a threshold above a quarter of the
      bytes and the number of blocks is never reached. */
  lemma HighThresholdNeverFires(session: Session, config: Config, summarize: seq<Message> -> string)
    requires var rest := Rest(session.messages);
             4 * config.maxEstimatedTokens > CountedBytes(rest) + 4 * |BlocksOf(rest)|
    ensures Compact(session, config, summarize).session == session
  {
    hide Compact, Rest, EstimateMessages, CountedBytes, BlocksOf;
    EstimateBounds(Rest(session.messages));
    FiresExactly(session, config, summarize);
  }

  /** A threshold of at most one token a block, or of a quarter of bytes and blocks, always fires when there is
      something to remove. */
  lemma LowThresholdFires(session: Session, config: Config, summarize: seq<Message> -> string)
    requires |Rest(session.messages)| > config.preserveRecent
    requires var blocks := |BlocksOf(Rest(session.messages))|;
             || config.maxEstimatedTokens <= blocks
             || 4 * config.maxEstimatedTokens <= CountedBytes(Rest(session.messages)) + blocks
    ensures Compact(session, config, summarize).removedCount == |Rest(session.messages)| - config.preserveRecent
  {
    hide Compact, Rest, EstimateMessages, CountedBytes, BlocksOf;
    EstimateBounds(Rest(session.messages));
    FiresExactly(session, config, summarize);
  }

  /** Five short messages under the default configuration. */
  function ShortSession(): Session {
    var hi := Message(User, [Text("hi")], None);
    Session(1, [hi, hi, hi, hi, hi], None)
  }

  const DEFAULT := Config(4, 10000)

  /** There are enough messages to compact, and they are left alone. */
  lemma ShortSessionIsKept(summarize: seq<Message> -> string)
    ensures |Rest(ShortSession().messages)| > DEFAULT.preserveRecent
    ensures Compact(ShortSession(), DEFAULT, summarize).session == ShortSession()
  {
    hide Compact, CountedBytes, BlocksOf, AllCounted, ExtractExisting;
    var hi := Message(User, [Text("hi")], None);
    NoHead(hi);
    var messages := ShortSession().messages;
    assert Rest(messages) == messages;
    HiBlocks(hi);
    HighThresholdNeverFires(ShortSession(), DEFAULT, summarize);
  }

  lemma NoHead(m: Message)
    requires m.role == User
    ensures ExtractExisting(m).None?
  {
  }

  lemma HiBlocks(hi: Message)
    requires hi.blocks == [Text("hi")]
    ensures var messages := [hi, hi, hi, hi, hi];
            |BlocksOf(messages)| == 5 && CountedBytes(messages) == 10
  {
    NoMessages();
    OneHiMore(hi, []);
    OneHiMore(hi, [hi]);
    OneHiMore(hi, [hi, hi]);
    OneHiMore(hi, [hi, hi, hi]);
    OneHiMore(hi, [hi, hi, hi, hi]);
    hide BlocksOf, CountedBytes;
    assert [hi] + [] == [hi] && [hi] + [hi] == [hi, hi] && [hi] + [hi, hi] == [hi, hi, hi];
    assert [hi] + [hi, hi, hi] == [hi, hi, hi, hi] && [hi] + [hi, hi, hi, hi] == [hi, hi, hi, hi, hi];
  }

  lemma NoMessages()
    ensures BlocksOf([]) == [] && CountedBytes([]) == 0
  {
  }

  lemma OneHiMore(hi: Message, rest: seq<Message>)
    requires hi.blocks == [Text("hi")]
    ensures |BlocksOf([hi] + rest)| == 1 + |BlocksOf(rest)| && CountedBytes([hi] + rest) == 2 + CountedBytes(rest)
  {
    hide Encode;
    assert ([hi] + rest)[1..] == rest;
    assert BlocksOf([hi] + rest) == [Text("hi")] + BlocksOf(rest);
    hide BlocksOf;
    assert ([Text("hi")] + BlocksOf(rest))[1..] == BlocksOf(rest);
    assert AllCounted([Text("hi")] + BlocksOf(rest)) == "hi" + AllCounted(BlocksOf(rest));
    EncodeConcat("hi", AllCounted(BlocksOf(rest)));
    HiLength();
  }

  lemma HiLength()
    ensures |Encode("hi")| == 2
  {
    hide Encode;
    EncodeOne('h');
    EncodeOne('i');
    EncodeConcat("h", "i");
    assert "h" + "i" == "hi";
  }

  // ----- What a compaction reports

  /** The estimates before and after are those of the two sessions, and the version is kept; the text reported is
      the one that the new head carries, in whole and formatted, or nothing. */
  predicate Reports(session: Session, config: Config, r: CompactionResult) {
    && r.tokensBefore == EstimateMessages(session.messages)
    && r.tokensAfter == EstimateMessages(r.session.messages)
    && r.session.version == session.version
    && r.status == EffectiveStatus(r.session)
    && (r.removedCount == 0 ==> r.summary == "" && r.formattedSummary == "")
    && (r.removedCount > 0 ==>
          && r.session.messages != []
          && r.formattedSummary == Format(r.summary)
          && r.session.messages[0].blocks == [Text(ContinuationText(r.summary, true, config.preserveRecent > 0))])
  }

  lemma CompactReports(session: Session, config: Config, summarize: seq<Message> -> string)
    ensures Reports(session, config, Compact(session, config, summarize))
  {
    hide EstimateMessages, NewSummaryText, ExtractExisting, Format, ContinuationText, UsageOf, TurnsOf, AddUsage,
         Wrapping, Removed, Preserved;
    if ShouldCompact(session, config) {
      CompactedParts(session, config, summarize);
      PartSizes(session, config);
    }
  }

  /** A run keeps the version of the session it starts from. */
  lemma {:induction false} RunKeepsVersion(start: Session, ops: seq<Op>, summarize: seq<Message> -> string)
    ensures Run(start, ops, summarize).version == start.version
  {
    hide Compact;
    if ops != [] {
      var before := ops[..|ops| - 1];
      RunKeepsVersion(start, before, summarize);
      if ops[|ops| - 1].CompactWith? {
        CompactReports(Run(start, before, summarize), ops[|ops| - 1].config, summarize);
      }
    }
  }
}
