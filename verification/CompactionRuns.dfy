/** Whole runs of appends and compactions: nothing is lost from the ledger, and no highlight is lost
    from the summary. */
module CompactionRuns {
  import opened Options
  import opened SummaryText
  import opened SummaryLaws
  import opened SummaryMerge
  import opened Compaction

  datatype Op = Append(message: Message) | CompactWith(config: Config)

  const EMPTY := Session(1, [], None)

  function Apply(session: Session, op: Op, summarize: seq<Message> -> string): Session {
    match op
    case Append(message) => session.(messages := session.messages + [message])
    case CompactWith(config) => Compact(session, config, summarize).session
  }

  function Run(session: Session, ops: seq<Op>, summarize: seq<Message> -> string): Session {
    if ops == [] then session else Apply(Run(session, ops[..|ops| - 1], summarize), ops[|ops| - 1], summarize)
  }

  /** Every message ever appended. */
  function Appended(ops: seq<Op>): seq<Message> {
    if ops == [] then []
    else
      var before := Appended(ops[..|ops| - 1]);
      if ops[|ops| - 1].Append? then before + [ops[|ops| - 1].message] else before
  }

  // ----- Uncapped totals

  datatype Totals = Totals(input: nat, output: nat, cacheCreation: nat, cacheRead: nat)

  function Cap(t: Totals): TokenUsage {
    TokenUsage(Saturating(t.input), Saturating(t.output), Saturating(t.cacheCreation), Saturating(t.cacheRead))
  }

  function Plus(a: Totals, b: Totals): Totals {
    Totals(a.input + b.input, a.output + b.output, a.cacheCreation + b.cacheCreation, a.cacheRead + b.cacheRead)
  }

  function TotalOfOne(m: Message): Totals {
    if m.usage.None? then Totals(0, 0, 0, 0)
    else Totals(m.usage.value.input, m.usage.value.output, m.usage.value.cacheCreation, m.usage.value.cacheRead)
  }

  function TotalOf(messages: seq<Message>): Totals {
    if messages == [] then Totals(0, 0, 0, 0) else Plus(TotalOfOne(messages[0]), TotalOf(messages[1..]))
  }

  lemma CapPlus(a: Totals, b: Totals)
    ensures AddUsage(Cap(a), Cap(b)) == Cap(Plus(a, b))
  {
  }

  lemma PlusLaws(a: Totals, b: Totals, c: Totals)
    ensures Plus(a, Plus(b, c)) == Plus(Plus(a, b), c)
    ensures Plus(a, Totals(0, 0, 0, 0)) == a == Plus(Totals(0, 0, 0, 0), a)
  {
  }

  lemma CapOne(m: Message)
    ensures m.usage.Some? ==> Cap(TotalOfOne(m)) == m.usage.value
    ensures m.usage.None? ==> TotalOfOne(m) == Totals(0, 0, 0, 0)
  {
  }

  /** Capping at every addition gives the capped sum. */
  lemma {:induction false} UsageFromIsCappedSum(start: Totals, messages: seq<Message>)
    ensures UsageFrom(Cap(start), messages) == Cap(Plus(start, TotalOf(messages)))
    decreases |messages|
  {
    hide Cap, Plus, TotalOfOne, AddUsage;
    if messages == [] {
      PlusLaws(start, start, start);
    } else {
      var one := TotalOfOne(messages[0]);
      UsageFromIsCappedSum(Plus(start, one), messages[1..]);
      PlusLaws(start, one, TotalOf(messages[1..]));
      CapOne(messages[0]);
      CapPlus(start, one);
    }
  }

  lemma UsageIsCappedSum(messages: seq<Message>)
    ensures UsageOf(messages) == Cap(TotalOf(messages))
  {
    UsageFromIsCappedSum(Totals(0, 0, 0, 0), messages);
  }

  lemma TotalConcat(a: seq<Message>, b: seq<Message>)
    ensures TotalOf(a + b) == Plus(TotalOf(a), TotalOf(b))
    ensures CountTurns(a + b) == CountTurns(a) + CountTurns(b)
  {
    SumConcat(a, b);
    CountConcat(a, b);
  }

  lemma {:induction false} SumConcat(a: seq<Message>, b: seq<Message>)
    ensures TotalOf(a + b) == Plus(TotalOf(a), TotalOf(b))
  {
    hide Plus, TotalOfOne;
    if a == [] {
      assert a + b == b;
      PlusLaws(TotalOf(b), TotalOf(b), TotalOf(b));
    } else {
      assert (a + b)[1..] == a[1..] + b;
      SumConcat(a[1..], b);
      PlusLaws(TotalOfOne(a[0]), TotalOf(a[1..]), TotalOf(b));
    }
  }

  lemma {:induction false} CountConcat(a: seq<Message>, b: seq<Message>)
    ensures CountTurns(a + b) == CountTurns(a) + CountTurns(b)
  {
    if a == [] {
      assert a + b == b;
    } else {
      assert (a + b)[1..] == a[1..] + b;
      CountConcat(a[1..], b);
    }
  }

  lemma OneTotal(m: Message)
    ensures TotalOf([m]) == TotalOfOne(m)
    ensures CountTurns([m]) == if m.usage.Some? then 1 else 0
  {
  }

  // ----- The ledger

  function Ledger(session: Session): TokenUsage {
    if session.telemetry.Some? then session.telemetry.value.compactedUsage else NO_USAGE
  }

  function LedgerTurns(session: Session): u32 {
    if session.telemetry.Some? then session.telemetry.value.compactedTurns else 0
  }

  function Exact(usage: TokenUsage): Totals {
    Totals(usage.input, usage.output, usage.cacheCreation, usage.cacheRead)
  }

  /** The ledger holds the usage, capped, that the live messages lack of what the ledger held at the start and
      of all that counts. */
  ghost predicate UsageBalanced(ledger: TokenUsage, live: seq<Message>, start: TokenUsage, counted: seq<Message>) {
    exists gone :: ledger == Cap(gone) && Plus(gone, TotalOf(live)) == Plus(Exact(start), TotalOf(counted))
  }

  predicate TurnsBalanced(ledger: u32, live: seq<Message>, start: u32, counted: seq<Message>) {
    start + CountTurns(counted) <= U32_MAX ==> ledger + CountTurns(live) == start + CountTurns(counted)
  }

  ghost predicate Balanced(session: Session, live: seq<Message>, start: Session, counted: seq<Message>) {
    && UsageBalanced(Ledger(session), live, Ledger(start), counted)
    && TurnsBalanced(LedgerTurns(session), live, LedgerTurns(start), counted)
  }

  /** A first message that looks like a summary carries no usage of its own. */
  predicate HonestHead(messages: seq<Message>) {
    ExistingSummary(messages).Some? ==> messages[0].usage.None?
  }

  /** What a session accounts for once a compaction has fired: everything, save a first message that looks
      like a summary and carries usage, which the first compaction takes for a summary. */
  function Accountable(all: seq<Message>): seq<Message> {
    if HonestHead(all) then all else all[1..]
  }

  function Counted(all: seq<Message>, fired: bool): seq<Message> {
    if fired then Accountable(all) else all
  }

  /** Every message there ever was: those the session was loaded with and those appended. */
  function Everything(start: Session, ops: seq<Op>): seq<Message> {
    start.messages + Appended(ops)
  }

  /** A summary cut off without usage leaves the totals as they are. */
  lemma HonestPrefix(messages: seq<Message>)
    requires HonestHead(messages)
    ensures PrefixLen(messages) <= |messages|
    ensures TotalOf(messages[PrefixLen(messages)..]) == TotalOf(messages)
    ensures CountTurns(messages[PrefixLen(messages)..]) == CountTurns(messages)
  {
    hide ExtractExisting;
    PrefixInside(messages);
    if PrefixLen(messages) == 0 {
      assert messages[0..] == messages;
    }
  }

  /** What a firing compaction puts into the session, in the terms of the ledger. */
  lemma CompactedLedger(session: Session, config: Config, summarize: seq<Message> -> string) returns (head: Message)
    requires ShouldCompact(session, config)
    ensures var after := Compact(session, config, summarize).session;
            && head.usage.None?
            && after.messages == [head] + Preserved(session, config)
            && after.telemetry.Some?
            && Ledger(after) == AddUsage(Ledger(session), UsageOf(Removed(session, config)))
            && LedgerTurns(after) == Wrapping(LedgerTurns(session) + TurnsOf(Removed(session, config)))
  {
    hide ShouldCompact, Compact, NewSummaryText, Removed, Preserved, EstimateMessages, Format, UsageOf, TurnsOf,
         AddUsage, Wrapping, EffectiveStatus, ContinuationText;
    CompactedParts(session, config, summarize);
    head := SummaryMessage(NewSummaryText(session, config, summarize), Preserved(session, config) != []);
  }

  /** The messages a compaction looks at are those it removes and those it keeps. */
  lemma CutParts(session: Session, config: Config)
    requires ShouldCompact(session, config)
    ensures PrefixLen(session.messages) <= |session.messages|
    ensures session.messages[PrefixLen(session.messages)..] == Removed(session, config) + Preserved(session, config)
  {
    hide ShouldCompact, ExistingSummary;
    SlicesInRange(session, config);
  }

  /** A firing compaction keeps the balance of what it looks at. */
  lemma CompactKeepsUsage(session: Session, config: Config, summarize: seq<Message> -> string, start: Session,
                          counted: seq<Message>)
    requires ShouldCompact(session, config) && PrefixLen(session.messages) <= |session.messages|
    requires UsageBalanced(Ledger(session), session.messages[PrefixLen(session.messages)..], Ledger(start), counted)
    ensures var after := Compact(session, config, summarize).session;
            UsageBalanced(Ledger(after), after.messages, Ledger(start), counted)
  {
    hide ShouldCompact, TotalOf, CountTurns, Removed, Preserved, UsageOf, Compact, Cap, Plus, AddUsage, Ledger,
         TotalOfOne, PrefixLen, Exact;
    CutParts(session, config);
    var head := CompactedLedger(session, config, summarize);
    var removed, preserved := Removed(session, config), Preserved(session, config);
    var after := Compact(session, config, summarize).session;
    var whole := Plus(Exact(Ledger(start)), TotalOf(counted));
    var gone :| Ledger(session) == Cap(gone) && Plus(gone, TotalOf(removed + preserved)) == whole;
    var taken, left := TotalOf(removed), TotalOf(preserved);
    UsageIsCappedSum(removed);
    CapPlus(gone, taken);
    TotalConcat(removed, preserved);
    TotalConcat([head], preserved);
    OneTotal(head);
    CapOne(head);
    PlusLaws(left, left, left);
    PlusLaws(gone, taken, left);
    var gone' := Plus(gone, taken);
    assert Ledger(after) == Cap(gone') && Plus(gone', TotalOf(after.messages)) == whole;
  }

  lemma CompactKeepsTurns(session: Session, config: Config, summarize: seq<Message> -> string, start: u32,
                          counted: seq<Message>)
    requires ShouldCompact(session, config) && PrefixLen(session.messages) <= |session.messages|
    requires TurnsBalanced(LedgerTurns(session), session.messages[PrefixLen(session.messages)..], start, counted)
    ensures var after := Compact(session, config, summarize).session;
            TurnsBalanced(LedgerTurns(after), after.messages, start, counted)
  {
    hide ShouldCompact, TotalOf, CountTurns, Removed, Preserved, UsageOf, Compact, Cap, Plus, AddUsage, Ledger,
         TotalOfOne, LedgerTurns, PrefixLen;
    CutParts(session, config);
    var head := CompactedLedger(session, config, summarize);
    TotalConcat(Removed(session, config), Preserved(session, config));
    TotalConcat([head], Preserved(session, config));
    OneTotal(head);
  }

  lemma AppendKeepsUsage(ledger: TokenUsage, live: seq<Message>, start: TokenUsage, counted: seq<Message>, m: Message)
    requires UsageBalanced(ledger, live, start, counted)
    ensures UsageBalanced(ledger, live + [m], start, counted + [m])
  {
    hide TotalOf, CountTurns, Plus, Cap, TotalOfOne, Exact;
    var gone :| ledger == Cap(gone) && Plus(gone, TotalOf(live)) == Plus(Exact(start), TotalOf(counted));
    TotalConcat(live, [m]);
    TotalConcat(counted, [m]);
    PlusLaws(gone, TotalOf(live), TotalOf([m]));
    PlusLaws(Exact(start), TotalOf(counted), TotalOf([m]));
    assert ledger == Cap(gone) && Plus(gone, TotalOf(live + [m])) == Plus(Exact(start), TotalOf(counted + [m]));
  }

  lemma AppendKeepsTurns(ledger: u32, live: seq<Message>, start: u32, counted: seq<Message>, m: Message)
    requires TurnsBalanced(ledger, live, start, counted)
    ensures TurnsBalanced(ledger, live + [m], start, counted + [m])
  {
    hide CountTurns;
    CountConcat(live, [m]);
    CountConcat(counted, [m]);
  }

  // ----- Every run

  /** What holds after every run from `start`: until a compaction fires the session is what it was loaded
      with and what was appended; then its head is a summary without usage; and always ledger and live
      messages account for what the ledger held at the start and for all that counts. */
  ghost predicate RunInv(start: Session, session: Session, all: seq<Message>, fired: bool) {
    && (!fired ==> session.messages == all && session.telemetry == start.telemetry)
    && (fired ==> HonestHead(session.messages) && session.messages != [] && all != [] && session.telemetry.Some?)
    && Balanced(session, session.messages, start, Counted(all, fired))
  }

  lemma CapExact(usage: TokenUsage)
    ensures Cap(Exact(usage)) == usage
  {
  }

  lemma AppendKeepsInv(start: Session, session: Session, m: Message, all: seq<Message>, fired: bool)
    requires RunInv(start, session, all, fired)
    ensures RunInv(start, session.(messages := session.messages + [m]), all + [m], fired)
  {
    hide ExtractExisting, UsageBalanced, TurnsBalanced;
    var counted := Counted(all, fired);
    AppendKeepsUsage(Ledger(session), session.messages, Ledger(start), counted, m);
    AppendKeepsTurns(LedgerTurns(session), session.messages, LedgerTurns(start), counted, m);
    if fired {
      SameHead(session.messages, m);
      SameHead(all, m);
      assert (all + [m])[1..] == all[1..] + [m];
      assert Counted(all + [m], fired) == counted + [m];
    }
  }

  lemma SameHead(messages: seq<Message>, m: Message)
    requires messages != []
    ensures HonestHead(messages + [m]) == HonestHead(messages)
  {
    hide ExtractExisting;
    assert (messages + [m])[0] == messages[0];
  }

  lemma CompactKeepsInv(start: Session, session: Session, config: Config, summarize: seq<Message> -> string,
                        all: seq<Message>, fired: bool)
    requires ShouldCompact(session, config) && RunInv(start, session, all, fired)
    ensures RunInv(start, Compact(session, config, summarize).session, all, true)
  {
    hide ShouldCompact, Compact, UsageBalanced, TurnsBalanced, ExtractExisting, Removed, Preserved, UsageOf, AddUsage,
         Wrapping, TurnsOf, PrefixLen, HonestHead, Ledger, LedgerTurns, Accountable;
    LookedAt(start, session, config, all, fired);
    var after := Compact(session, config, summarize).session;
    var head := CompactedLedger(session, config, summarize);
    CompactKeepsUsage(session, config, summarize, start, Accountable(all));
    CompactKeepsTurns(session, config, summarize, LedgerTurns(start), Accountable(all));
    FreeHead(head, Preserved(session, config));
  }

  lemma FreeHead(head: Message, rest: seq<Message>)
    requires head.usage.None?
    ensures HonestHead([head] + rest)
  {
    hide ExtractExisting;
  }

  /** What a compaction looks at balances with what counts afterwards. */
  lemma LookedAt(start: Session, session: Session, config: Config, all: seq<Message>, fired: bool)
    requires ShouldCompact(session, config) && RunInv(start, session, all, fired)
    ensures PrefixLen(session.messages) <= |session.messages| && all != []
    ensures Balanced(session, session.messages[PrefixLen(session.messages)..], start, Accountable(all))
  {
    hide ExtractExisting, TotalOf, CountTurns, EstimateMessages, Cap, Plus, Balanced;
    PrefixInside(session.messages);
    if HonestHead(session.messages) {
      HonestPrefix(session.messages);
      SameTotals(session, session.messages, session.messages[PrefixLen(session.messages)..], start, Accountable(all));
    } else {
      NothingGone(start, session, all[1..]);
    }
  }

  lemma SameTotals(session: Session, live: seq<Message>, same: seq<Message>, start: Session, counted: seq<Message>)
    requires Balanced(session, live, start, counted)
    requires TotalOf(same) == TotalOf(live) && CountTurns(same) == CountTurns(live)
    ensures Balanced(session, same, start, counted)
  {
    hide TotalOf, CountTurns, Cap, Plus, Exact;
  }

  lemma NothingGone(start: Session, session: Session, live: seq<Message>)
    requires session.telemetry == start.telemetry
    ensures Balanced(session, live, start, live)
  {
    hide TotalOf, CountTurns, Cap, Plus, Exact;
    var gone := Exact(Ledger(start));
    CapExact(Ledger(start));
    assert Ledger(session) == Cap(gone) && Plus(gone, TotalOf(live)) == Plus(Exact(Ledger(start)), TotalOf(live));
  }

  lemma {:induction false} RunKeepsBalance(start: Session, ops: seq<Op>, summarize: seq<Message> -> string)
    ensures RunInv(start, Run(start, ops, summarize), Everything(start, ops), Fired(start, ops, summarize) > 0)
  {
    hide RunInv, Compact, ShouldCompact;
    if ops == [] {
      assert start.messages + [] == start.messages;
      NothingRun(start);
    } else {
      var before := ops[..|ops| - 1];
      RunKeepsBalance(start, before, summarize);
      var s, fired := Run(start, before, summarize), Fired(start, before, summarize) > 0;
      match ops[|ops| - 1] {
        case Append(m) =>
          AppendKeepsInv(start, s, m, Everything(start, before), fired);
          assert Everything(start, ops) == Everything(start, before) + [m];
        case CompactWith(config) =>
          if ShouldCompact(s, config) {
            CompactKeepsInv(start, s, config, summarize, Everything(start, before), fired);
          } else {
            NotFired(s, config, summarize);
          }
      }
    }
  }

  lemma NothingRun(start: Session)
    ensures RunInv(start, start, start.messages, false)
  {
    hide Balanced;
    NothingGone(start, start, start.messages);
  }

  lemma NotFired(session: Session, config: Config, summarize: seq<Message> -> string)
    requires !ShouldCompact(session, config)
    ensures Compact(session, config, summarize).session == session
  {
  }

  /** How many compactions of the run fire. */
  function Fired(session: Session, ops: seq<Op>, summarize: seq<Message> -> string): nat {
    if ops == [] then 0
    else
      var before := ops[..|ops| - 1];
      Fired(session, before, summarize) + if Fires(Run(session, before, summarize), ops[|ops| - 1]) then 1 else 0
  }

  predicate Fires(session: Session, op: Op) {
    op.CompactWith? && ShouldCompact(session, op.config)
  }

  /** In every run from any session, with or without a ledger and a summary: what was compacted and what is
      live add up, capped, to what the ledger held at the start and the usage of every message there ever was,
      and turns likewise while they fit in 32 bits; only a first message that looks like a summary and carries
      usage drops out, whole, when a compaction fires. */
  lemma UsageIsConserved(start: Session, ops: seq<Op>, summarize: seq<Message> -> string)
    ensures var session := Run(start, ops, summarize);
            var counted := Counted(Everything(start, ops), Fired(start, ops, summarize) > 0);
            && AddUsage(Ledger(session), UsageOf(session.messages)) == AddUsage(Ledger(start), UsageOf(counted))
            && (LedgerTurns(start) + CountTurns(counted) <= U32_MAX ==>
                  LedgerTurns(session) + CountTurns(session.messages) == LedgerTurns(start) + CountTurns(counted))
  {
    hide Run, Everything, ExtractExisting, UsageOf, TotalOf, CountTurns, Fired, Cap, Plus, AddUsage, Counted, Ledger,
         LedgerTurns, Exact;
    RunKeepsBalance(start, ops, summarize);
    var session := Run(start, ops, summarize);
    var counted := Counted(Everything(start, ops), Fired(start, ops, summarize) > 0);
    var gone :| Ledger(session) == Cap(gone)
                && Plus(gone, TotalOf(session.messages)) == Plus(Exact(Ledger(start)), TotalOf(counted));
    UsageIsCappedSum(session.messages);
    UsageIsCappedSum(counted);
    CapExact(Ledger(start));
    CapPlus(gone, TotalOf(session.messages));
    CapPlus(Exact(Ledger(start)), TotalOf(counted));
  }

  /** Turns are conserved exactly when the first message is honest or nothing was compacted; otherwise exactly
      one is lost. Usage is conserved in the same cases, and when the lost message makes no difference to the
      capped sum. */
  lemma ConservedExactly(start: Session, ops: seq<Op>, summarize: seq<Message> -> string)
    requires LedgerTurns(start) + CountTurns(Everything(start, ops)) <= U32_MAX
    ensures var session, all, ledger := Run(start, ops, summarize), Everything(start, ops), Ledger(start);
            var turns := LedgerTurns(session) + CountTurns(session.messages);
            var ever := LedgerTurns(start) + CountTurns(all);
            var spared := HonestHead(all) || Fired(start, ops, summarize) == 0;
            && (turns == ever <==> spared)
            && (!spared ==> turns == ever - 1)
            && (AddUsage(Ledger(session), UsageOf(session.messages)) == AddUsage(ledger, UsageOf(all)) <==>
                  spared || AddUsage(ledger, UsageOf(Accountable(all))) == AddUsage(ledger, UsageOf(all)))
  {
    hide Run, Everything, ExtractExisting, UsageOf, TotalOf, CountTurns, Fired, AddUsage, HonestHead, Accountable,
         Ledger, LedgerTurns;
    UsageIsConserved(start, ops, summarize);
    AccountableTurns(Everything(start, ops));
  }

  lemma AccountableTurns(all: seq<Message>)
    ensures HonestHead(all) ==> Accountable(all) == all
    ensures !HonestHead(all) ==>
              all != [] && Accountable(all) == all[1..] && CountTurns(all) == 1 + CountTurns(all[1..])
    ensures !HonestHead(all) ==> TotalOf(all) == Plus(TotalOfOne(all[0]), TotalOf(all[1..]))
  {
    hide ExtractExisting;
  }

  /** A run whose first message is the text of a continuation message, come in with usage: another message
      follows, and the two are compacted. */
  function LossyRun(): seq<Op> {
    [Append(CopiedSummary()), Append(Message(Assistant, [Text("ok")], Some(TokenUsage(7, 0, 0, 0)))),
     CompactWith(Config(0, 1))]
  }

  function CopiedSummary(): Message {
    SummaryMessage("", false).(usage := Some(TokenUsage(7, 0, 0, 0)))
  }

  /** Of two turns and fourteen input tokens, one turn and seven tokens are left. */
  lemma TurnLost(summarize: seq<Message> -> string)
    ensures var session, all := Run(EMPTY, LossyRun(), summarize), Appended(LossyRun());
            && CountTurns(all) == 2 && LedgerTurns(session) + CountTurns(session.messages) == 1
            && UsageOf(all).input == 14 && AddUsage(Ledger(session), UsageOf(session.messages)).input == 7
  {
    SummaryMessageRecognised("", false);
    SameText(SummaryMessage("", false), CopiedSummary());
    hide Run, Appended, Everything, UsageOf, AddUsage, Fired, CopiedSummary, ExtractExisting, Accountable,
         EstimateBlocks, SummaryMessage, CountTurns, Ledger, LedgerTurns;
    var reply := Message(Assistant, [Text("ok")], Some(TokenUsage(7, 0, 0, 0)));
    CopiedUsage();
    ShortReply(reply);
    LossyStart(CopiedSummary(), reply, summarize);
    TwoUsages(CopiedSummary(), reply);
    LookedLikeSummary(CopiedSummary(), reply);
    UsageIsConserved(EMPTY, LossyRun(), summarize);
    NothingBefore(LossyRun());
    AddToNothing(UsageOf([reply]));
  }

  lemma NothingBefore(ops: seq<Op>)
    ensures Everything(EMPTY, ops) == Appended(ops) && Ledger(EMPTY) == NO_USAGE && LedgerTurns(EMPTY) == 0
  {
  }

  lemma AddToNothing(usage: TokenUsage)
    ensures AddUsage(NO_USAGE, usage) == usage
  {
  }

  lemma SameText(a: Message, b: Message)
    requires a.role == b.role && a.blocks == b.blocks
    ensures ExtractExisting(a) == ExtractExisting(b)
  {
  }

  lemma CopiedUsage()
    ensures CopiedSummary().usage == Some(TokenUsage(7, 0, 0, 0))
  {
  }

  lemma ShortReply(reply: Message)
    requires reply.blocks == [Text("ok")]
    ensures EstimateBlocks(reply.blocks) >= 1
  {
  }

  lemma TwoUsages(a: Message, b: Message)
    requires a.usage == b.usage == Some(TokenUsage(7, 0, 0, 0))
    ensures CountTurns([a, b]) == 2 && UsageOf([a, b]).input == 14
    ensures CountTurns([b]) == 1 && UsageOf([b]).input == 7
  {
    hide UsageFrom, CountTurns, TotalOf, TotalOfOne;
    assert [a] + [b] == [a, b];
    TotalConcat([a], [b]);
    UsageIsCappedSum([a, b]);
    UsageIsCappedSum([b]);
    SevenTokens(a);
    SevenTokens(b);
  }

  lemma SevenTokens(m: Message)
    requires m.usage == Some(TokenUsage(7, 0, 0, 0))
    ensures CountTurns([m]) == 1 && TotalOf([m]) == Totals(7, 0, 0, 0)
  {
    hide TotalOf, CountTurns;
    OneTotal(m);
  }

  lemma LookedLikeSummary(a: Message, b: Message)
    requires ExtractExisting(a).Some? && a.usage.Some?
    ensures Accountable([a, b]) == [b]
  {
    hide ExtractExisting;
    assert [a, b][1..] == [b];
  }

  /** Two appends and a compaction that fires. */
  lemma LossyStart(a: Message, b: Message, summarize: seq<Message> -> string)
    requires ExtractExisting(a).Some? && EstimateBlocks(b.blocks) >= 1
    ensures var ops := [Append(a), Append(b), CompactWith(Config(0, 1))];
            Appended(ops) == [a, b] && Fired(EMPTY, ops, summarize) > 0
  {
    hide ExtractExisting, Compact, EstimateBlocks;
    var ops := [Append(a), Append(b), CompactWith(Config(0, 1))];
    assert ops[..2][..1] == ops[..1] && ops[..1][..0] == [];
    assert Appended(ops[..1]) == [a] && Appended(ops[..2]) == [a, b];
    assert Run(EMPTY, ops[..1][..0], summarize) == EMPTY;
    assert Run(EMPTY, ops[..1], summarize).messages == [a];
    var s := Run(EMPTY, ops[..2], summarize);
    assert s == Session(1, [a, b], None);
    assert s.messages[1..] == [b];
    assert EstimateMessages([b]) == EstimateBlocks(b.blocks);
  }

  /** The accounting status never changes once there is a ledger; without one it stays complete exactly when
      the first message there ever was is no summary. */
  lemma {:induction false} StatusIsDecidedAtTheStart(start: Session, ops: seq<Op>, summarize: seq<Message> -> string)
    ensures var session, all := Run(start, ops, summarize), Everything(start, ops);
            && (if start.telemetry.Some? then
                  session.telemetry.Some? && EffectiveStatus(session) == start.telemetry.value.status
                else EffectiveStatus(session) == Complete <==> all == [] || ExtractExisting(all[0]).None?)
            && (session.telemetry.None? ==> session.messages == all)
            && (session.telemetry.Some? && start.telemetry.None? ==> all != [])
  {
    hide ExtractExisting, ShouldCompact, Compact;
    if ops == [] {
      assert start.messages + [] == start.messages;
    } else {
      var before := ops[..|ops| - 1];
      StatusIsDecidedAtTheStart(start, before, summarize);
      var s := Run(start, before, summarize);
      match ops[|ops| - 1] {
        case Append(m) =>
          assert Everything(start, ops) == Everything(start, before) + [m];
          assert Everything(start, before) != [] ==> Everything(start, ops)[0] == Everything(start, before)[0];
        case CompactWith(config) =>
          if ShouldCompact(s, config) {
            SlicesInRange(s, config);
            StatusCarried(s, config, summarize);
          } else {
            NotFired(s, config, summarize);
          }
      }
    }
  }

  lemma StatusCarried(session: Session, config: Config, summarize: seq<Message> -> string)
    requires ShouldCompact(session, config)
    ensures var after := Compact(session, config, summarize).session;
            after.telemetry.Some? && after.telemetry.value.status == EffectiveStatus(session)
  {
    hide ShouldCompact, Compact, EstimateMessages, NewSummaryText, Removed, Preserved, Format, EffectiveStatus, UsageOf,
         TurnsOf;
    CompactedParts(session, config, summarize);
  }

  // ----- Highlights over runs

  /** A firing compaction of a session that already has a summary keeps the merge of the two. */
  lemma CompactionMerges(session: Session, config: Config, summarize: seq<Message> -> string)
    requires ShouldCompact(session, config) && ExistingSummary(session.messages).Some?
    requires MergeReady(ExistingSummary(session.messages).value, summarize(Removed(session, config)))
    ensures ExistingSummary(Compact(session, config, summarize).session.messages)
         == Some(Format(Merge(ExistingSummary(session.messages), summarize(Removed(session, config)))))
  {
    hide ShouldCompact, Compact, EstimateMessages, Removed, Preserved, Format, EffectiveStatus, UsageOf, TurnsOf, Merge,
         MergeReady, ExtractExisting, ContinuationText, ExtractText, SummaryMessage;
    CompactedParts(session, config, summarize);
    var existing, new_ := ExistingSummary(session.messages).value, summarize(Removed(session, config));
    var merged := Merge(Some(existing), new_);
    var recent := Preserved(session, config) != [];
    MergedContinuationRecovers(existing, new_, true, recent);
    SummaryMessageRecognised(merged, recent);
    assert Compact(session, config, summarize).session.messages[0] == SummaryMessage(merged, recent);
  }

  /** Every summary written in the run is free of tags. */
  predicate SummariesReady(session: Session, ops: seq<Op>, summarize: seq<Message> -> string) {
    ops == [] || (
      var before, s, op := ops[..|ops| - 1], Run(session, ops[..|ops| - 1], summarize), ops[|ops| - 1];
      SummariesReady(session, before, summarize)
      && (Fires(s, op) ==> NewReady(summarize(Removed(s, op.config)))))
  }

  /** Whatever is appended and however often the session is compacted, a block of highlights stays in
      its summary: one heading further down and two spaces further in for each compaction that fires. */
  lemma {:induction false} HighlightsOutliveRuns(session: Session, ops: seq<Op>, summarize: seq<Message> -> string,
                                                 at: nat, block: seq<string>)
    requires ExistingSummary(session.messages).Some? && SummariesReady(session, ops, summarize)
    requires var existing := ExistingSummary(session.messages).value;
             AllTagFree(Highlights(existing)) && block != [] && BlockAt(Highlights(existing), at, block)
    ensures var final, m := Run(session, ops, summarize), Fired(session, ops, summarize);
            && ExistingSummary(final.messages).Some?
            && AllTagFree(Highlights(ExistingSummary(final.messages).value))
            && BlockAt(Highlights(ExistingSummary(final.messages).value), at + m, IndentedTimes(block, m))
    decreases |ops|
  {
    hide ExtractExisting, ShouldCompact, Compact, Highlights, AllTagFree, BlockAt, NewReady, IndentedTimes;
    if ops == [] {
      NoIndent(block);
    } else {
      var before, op := ops[..|ops| - 1], ops[|ops| - 1];
      HighlightsOutliveRuns(session, before, summarize, at, block);
      var s, m := Run(session, before, summarize), Fired(session, before, summarize);
      match op {
        case Append(message) =>
          assert (s.messages + [message])[0] == s.messages[0];
        case CompactWith(config) =>
          if ShouldCompact(s, config) {
            OneMoreIndent(block, m);
            HighlightsOutliveOne(s, config, summarize, at + m, IndentedTimes(block, m));
          } else {
            NotFired(s, config, summarize);
          }
      }
    }
  }

  lemma NoIndent(block: seq<string>)
    ensures IndentedTimes(block, 0) == block
  {
  }

  lemma {:induction false} OneMoreIndent(block: seq<string>, m: nat)
    ensures IndentedTimes(block, m + 1) == Indented(IndentedTimes(block, m))
    ensures block != [] ==> IndentedTimes(block, m) != []
    decreases m
  {
    if m > 0 { OneMoreIndent(Indented(block), m - 1); }
  }

  lemma HighlightsOutliveOne(session: Session, config: Config, summarize: seq<Message> -> string,
                             at: nat, block: seq<string>)
    requires ShouldCompact(session, config) && ExistingSummary(session.messages).Some?
    requires NewReady(summarize(Removed(session, config)))
    requires var existing := ExistingSummary(session.messages).value;
             AllTagFree(Highlights(existing)) && block != [] && BlockAt(Highlights(existing), at, block)
    ensures var after := Compact(session, config, summarize).session;
            && ExistingSummary(after.messages).Some?
            && AllTagFree(Highlights(ExistingSummary(after.messages).value))
            && BlockAt(Highlights(ExistingSummary(after.messages).value), at + 1, Indented(block))
  {
    hide ExistingSummary, ShouldCompact, Compact, Highlights, AllTagFree, BlockAt, NewReady, Indented, Format, Merge,
         Removed;
    CompactionMerges(session, config, summarize);
    BlockSurvives(ExistingSummary(session.messages).value, summarize(Removed(session, config)), at, block);
  }
}
