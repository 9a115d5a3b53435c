/** Consuming one run's events from a thread's shared event stream, and turning them into the result that a
    buffered run returns. */
module RunEvents {
  import opened Options

  datatype TokenUsage = TokenUsage(input: nat, output: nat, cacheCreation: nat, cacheRead: nat)

  datatype Role = System | User | Assistant | Tool

  datatype Message = Message(role: Role, texts: seq<string>, usage: Option<TokenUsage>)

  datatype Status = Idle | Running | AwaitingUserInput | Interrupted

  datatype ThreadSnapshot = ThreadSnapshot(runId: Option<string>, status: Status, pendingUserInput: Option<string>,
                                           recoveryNote: Option<string>, messages: seq<Message>)

  /** What an event of a run carries. */
  datatype RunEvent =
    | TextDelta(text: string)
    | Usage(usage: TokenUsage)
    | Completed(cumulativeUsage: TokenUsage)
    | WaitingUserInput(request: string)
    | Failed(error: string)
    | Other(kind: string)

  datatype ThreadEvent =
    | Snapshot(snapshot: ThreadSnapshot)
    | ResyncRequired
    | OfRun(runId: Option<string>, event: RunEvent)

  /** How the stream goes on after the events at hand: it closes, its transport fails, or another error
      is thrown. */
  datatype Ending = Closed | TransportError | OtherError

  /** How the event iterator of a run ends. */
  datatype Stop = Terminal | ResyncStop | ReconnectStop | ErrorStop

  predicate IsTerminal(event: RunEvent) {
    event.Completed? || event.Failed? || event.WaitingUserInput?
  }

  predicate Concerns(event: ThreadEvent, runId: string) {
    event.ResyncRequired? || (event.OfRun? && event.runId == Some(runId))
  }

  /** Nothing after this event is looked at. */
  predicate Ends(event: ThreadEvent, runId: string) {
    event.ResyncRequired? || (event.OfRun? && event.runId == Some(runId) && IsTerminal(event.event))
  }

  // ----- What a run sees

  /** The stream without snapshots and without the events of other runs. */
  function Relevant(stream: seq<ThreadEvent>, runId: string): seq<ThreadEvent> {
    if stream == [] then []
    else
      var rest := Relevant(stream[..|stream| - 1], runId);
      if Concerns(stream[|stream| - 1], runId) then rest + [stream[|stream| - 1]] else rest
  }

  /** The run's own events, in order. */
  function Own(stream: seq<ThreadEvent>, runId: string): seq<RunEvent> {
    if stream == [] then []
    else
      var last := stream[|stream| - 1];
      Own(stream[..|stream| - 1], runId) +
      if last.OfRun? && last.runId == Some(runId) then [last.event] else []
  }

  /** The position of the first event that ends the run, or the length of the stream. */
  function EndAt(stream: seq<ThreadEvent>, runId: string): (k: nat)
    ensures k <= |stream|
    ensures forall j :: 0 <= j < k ==> !Ends(stream[j], runId)
    ensures k < |stream| ==> Ends(stream[k], runId)
  {
    if stream == [] || Ends(stream[0], runId) then 0 else 1 + EndAt(stream[1..], runId)
  }

  /** The last snapshot in the stream, or the one known before. */
  function LastSnapshot(known: ThreadSnapshot, stream: seq<ThreadEvent>): ThreadSnapshot {
    if stream == [] then known
    else if stream[|stream| - 1].Snapshot? then stream[|stream| - 1].snapshot
    else LastSnapshot(known, stream[..|stream| - 1])
  }

  /** The part of the stream that the run consumes, its ending event included. */
  function Consumed(stream: seq<ThreadEvent>, runId: string): seq<ThreadEvent> {
    var k := EndAt(stream, runId);
    if k < |stream| then stream[..k + 1] else stream
  }

  function StopOf(stream: seq<ThreadEvent>, ending: Ending, runId: string): Stop {
    var k := EndAt(stream, runId);
    if k < |stream| then if stream[k].ResyncRequired? then ResyncStop else Terminal
    else if ending.OtherError? then ErrorStop else ReconnectStop
  }

  /** The thread is read again unless the run was told its end or another error was thrown. */
  predicate Rereads(stream: seq<ThreadEvent>, ending: Ending, runId: string) {
    StopOf(stream, ending, runId) == ResyncStop || StopOf(stream, ending, runId) == ReconnectStop
  }

  // ----- What a buffered run returns

  datatype Outcome =
    | Done(status: RunStatus, events: seq<RunEvent>, finalText: Option<string>, usage: Option<TokenUsage>,
           snapshot: Option<ThreadSnapshot>)
    | ThrowsResync
    | ThrowsReconnect(latest: Option<ThreadSnapshot>)
    | ThrowsOther

  datatype RunStatus =
    | RunCompleted
    | RunAwaitingUserInput(request: string)
    | RunFailed(error: string)
    | RunInterrupted(note: Option<string>)

  function Deltas(events: seq<RunEvent>): string {
    if events == [] then ""
    else Deltas(events[..|events| - 1]) + if events[|events| - 1].TextDelta? then events[|events| - 1].text else ""
  }

  function LatestUsage(events: seq<RunEvent>): Option<TokenUsage> {
    if events == [] then None
    else if events[|events| - 1].Usage? then Some(events[|events| - 1].usage)
    else LatestUsage(events[..|events| - 1])
  }

  function NormalizeText(text: string): Option<string> {
    if |text| == 0 then None else Some(text)
  }

  function JoinTexts(texts: seq<string>): string {
    if texts == [] then "" else texts[0] + JoinTexts(texts[1..])
  }

  function MessagesToText(messages: seq<Message>): string {
    if messages == [] then ""
    else (if messages[0].role == Assistant then JoinTexts(messages[0].texts) else "") + MessagesToText(messages[1..])
  }

  function AddUsage(a: TokenUsage, b: TokenUsage): TokenUsage {
    TokenUsage(a.input + b.input, a.output + b.output, a.cacheCreation + b.cacheCreation, a.cacheRead + b.cacheRead)
  }

  function SumAssistantUsage(messages: seq<Message>): Option<TokenUsage> {
    if messages == [] then None
    else
      var last := messages[|messages| - 1];
      var rest := SumAssistantUsage(messages[..|messages| - 1]);
      if last.role != Assistant || last.usage.None? then rest
      else if rest.None? then Some(last.usage.value)
      else Some(AddUsage(rest.value, last.usage.value))
  }

  /** `#reconcileBufferedRun`: the thread is read again and the result taken from what it says. */
  function Reconciled(initial: ThreadSnapshot, runId: string, events: seq<RunEvent>, resync: bool,
                      reread: Option<ThreadSnapshot>): Outcome {
    if reread.None? then if resync then ThrowsResync else ThrowsReconnect(None)
    else
      var latest := reread.value;
      if latest.runId.Some? && latest.runId != Some(runId) then ThrowsReconnect(reread)
      else if latest.status == Running then ThrowsReconnect(reread)
      else
        var appended := if |initial.messages| <= |latest.messages| then latest.messages[|initial.messages|..] else [];
        var text := if NormalizeText(Deltas(events)).Some? then NormalizeText(Deltas(events))
                    else NormalizeText(MessagesToText(appended));
        var usage := if LatestUsage(events).Some? then LatestUsage(events) else SumAssistantUsage(appended);
        if latest.status == Idle then Done(RunCompleted, events, text, usage, reread)
        else if latest.status == AwaitingUserInput && latest.pendingUserInput.Some? then
          Done(RunAwaitingUserInput(latest.pendingUserInput.value), events, text, usage, reread)
        else if latest.status == Interrupted then
          Done(RunInterrupted(latest.recoveryNote), events, text, usage, reread)
        else ThrowsReconnect(reread)
  }

  /** What a run with these own events returns when its last event ended it. */
  function Delivered(events: seq<RunEvent>): Outcome
    requires events != [] && IsTerminal(events[|events| - 1])
  {
    var last := events[|events| - 1];
    var text := NormalizeText(Deltas(events));
    if last.Completed? then Done(RunCompleted, events, text, Some(last.cumulativeUsage), None)
    else if last.WaitingUserInput? then
      Done(RunAwaitingUserInput(last.request), events, text, LatestUsage(events), None)
    else Done(RunFailed(last.error), events, text, LatestUsage(events), None)
  }

  /** `reread` is what reading the thread again gives, if the run has to. */
  function Buffered(initial: ThreadSnapshot, stream: seq<ThreadEvent>, ending: Ending, runId: string,
                    reread: Option<ThreadSnapshot>): Outcome {
    var events := Own(Consumed(stream, runId), runId);
    match StopOf(stream, ending, runId)
    case Terminal => EndsOwn(stream, runId); Delivered(events)
    case ResyncStop => Reconciled(initial, runId, events, true, reread)
    case ReconnectStop => Reconciled(initial, runId, events, false, reread)
    case ErrorStop => ThrowsOther
  }

  /** The event that ends a run otherwise than by a resync is the run's last one, and its only terminal one. */
  lemma EndsOwn(stream: seq<ThreadEvent>, runId: string)
    ensures var k, events := EndAt(stream, runId), Own(Consumed(stream, runId), runId);
            k < |stream| && !stream[k].ResyncRequired? ==>
              events == Own(stream[..k], runId) + [stream[k].event] && IsTerminal(stream[k].event)
  {
    var k := EndAt(stream, runId);
    if k < |stream| {
      assert stream[..k + 1][..k] == stream[..k];
    }
  }

  // ----- The client

  class Thread {
    var lastSnapshot: ThreadSnapshot

    constructor (lastSnapshot: ThreadSnapshot)
      ensures this.lastSnapshot == lastSnapshot
    {
      this.lastSnapshot := lastSnapshot;
    }

    /** The run's events as its iterator yields them, over the events of the thread that arrive. */
    method RunEvents(stream: seq<ThreadEvent>, ending: Ending, runId: string)
      returns (yielded: seq<RunEvent>, stop: Stop)
      modifies this
      ensures yielded == Own(Consumed(stream, runId), runId) && stop == StopOf(stream, ending, runId)
      ensures lastSnapshot == LastSnapshot(old(lastSnapshot), Consumed(stream, runId))
    {
      yielded := [];
      for i := 0 to |stream|
        invariant yielded == Own(stream[..i], runId) && lastSnapshot == LastSnapshot(old(lastSnapshot), stream[..i])
        invariant forall j :: 0 <= j < i ==> !Ends(stream[j], runId)
      {
        assert stream[..i + 1][..i] == stream[..i];
        var event := stream[i];
        if event.ResyncRequired? {
          EndIs(stream, runId, i);
          return yielded, ResyncStop;
        }
        if event.Snapshot? {
          lastSnapshot := event.snapshot;
          continue;
        }
        if event.runId != Some(runId) {
          continue;
        }
        yielded := yielded + [event.event];
        if IsTerminal(event.event) {
          EndIs(stream, runId, i);
          return yielded, Terminal;
        }
      }
      assert stream[..|stream|] == stream;
      EndIs(stream, runId, |stream|);
      stop := if ending.OtherError? then ErrorStop else ReconnectStop;
    }

    method ConsumeBufferedRun(initial: ThreadSnapshot, stream: seq<ThreadEvent>, ending: Ending, runId: string,
                              reread: Option<ThreadSnapshot>) returns (outcome: Outcome)
      modifies this
      ensures outcome == Buffered(initial, stream, ending, runId, reread)
      ensures lastSnapshot == if Rereads(stream, ending, runId) && reread.Some? then reread.value
                              else LastSnapshot(old(lastSnapshot), Consumed(stream, runId))
    {
      hide Own, Consumed, EndAt, StopOf, Deltas, LatestUsage, Reconciled, LastSnapshot;
      var yielded, stop := RunEvents(stream, ending, runId);
      LastTells(stream, ending, runId);
      NothingYet();
      var events: seq<RunEvent> := [];
      var finalText := "";
      var latestUsage: Option<TokenUsage> := None;
      for i := 0 to |yielded|
        invariant events == yielded[..i] && finalText == Deltas(events) && latestUsage == LatestUsage(events)
        invariant forall j :: 0 <= j < i ==> !IsTerminal(yielded[j])
        invariant lastSnapshot == LastSnapshot(old(lastSnapshot), Consumed(stream, runId))
      {
        var event := yielded[i];
        events := events + [event];
        OneMore(yielded[..i], event);
        assert IsTerminal(event) ==> i == |yielded| - 1 && events == yielded;
        match event
        case TextDelta(text) => finalText := finalText + text;
        case Usage(usage) => latestUsage := Some(usage);
        case Completed(usage) => return Done(RunCompleted, events, NormalizeText(finalText), Some(usage), None);
        case WaitingUserInput(request) =>
          return Done(RunAwaitingUserInput(request), events, NormalizeText(finalText), latestUsage, None);
        case Failed(error) => return Done(RunFailed(error), events, NormalizeText(finalText), latestUsage, None);
        case Other(_) =>
      }
      assert events == yielded;
      if stop == ErrorStop {
        return ThrowsOther;
      }
      outcome := Reconcile(initial, runId, events, finalText, latestUsage, stop == ResyncStop, reread);
    }

    method Reconcile(initial: ThreadSnapshot, runId: string, events: seq<RunEvent>, partialText: string,
                     partialUsage: Option<TokenUsage>, resync: bool, reread: Option<ThreadSnapshot>)
      returns (outcome: Outcome)
      requires partialText == Deltas(events) && partialUsage == LatestUsage(events)
      modifies this
      ensures outcome == Reconciled(initial, runId, events, resync, reread)
      ensures lastSnapshot == if reread.Some? then reread.value else old(lastSnapshot)
    {
      if reread.None? {
        return if resync then ThrowsResync else ThrowsReconnect(None);
      }
      var latest := reread.value;
      lastSnapshot := latest;
      if latest.runId.Some? && latest.runId != Some(runId) {
        return ThrowsReconnect(reread);
      }
      if latest.status == Running {
        return ThrowsReconnect(reread);
      }
      var appended := if |initial.messages| <= |latest.messages| then latest.messages[|initial.messages|..] else [];
      var text := NormalizeText(partialText);
      if text.None? {
        text := NormalizeText(MessagesToText(appended));
      }
      var usage := partialUsage;
      if usage.None? {
        usage := SumAssistantUsage(appended);
      }
      if latest.status == Idle {
        return Done(RunCompleted, events, text, usage, reread);
      }
      if latest.status == AwaitingUserInput && latest.pendingUserInput.Some? {
        return Done(RunAwaitingUserInput(latest.pendingUserInput.value), events, text, usage, reread);
      }
      if latest.status == Interrupted {
        return Done(RunInterrupted(latest.recoveryNote), events, text, usage, reread);
      }
      outcome := ThrowsReconnect(reread);
    }
  }

  lemma NothingYet()
    ensures Deltas([]) == "" && LatestUsage([]) == None
  {
  }

  lemma OneMore(events: seq<RunEvent>, event: RunEvent)
    ensures Deltas(events + [event]) == if event.TextDelta? then Deltas(events) + event.text else Deltas(events)
    ensures LatestUsage(events + [event]) == if event.Usage? then Some(event.usage) else LatestUsage(events)
  {
    assert (events + [event])[..|events|] == events;
  }

  /** The iterator of a run ends on a terminal event exactly when the last event it yielded is terminal,
      and no earlier one is. */
  lemma LastTells(stream: seq<ThreadEvent>, ending: Ending, runId: string)
    ensures var events := Own(Consumed(stream, runId), runId);
            && (StopOf(stream, ending, runId) == Terminal <==> events != [] && IsTerminal(events[|events| - 1]))
            && forall j :: 0 <= j < |events| - 1 ==> !IsTerminal(events[j])
  {
    EndsOwn(stream, runId);
    OnlyLastTerminal(stream, runId);
  }

  lemma {:induction false} EndIs(stream: seq<ThreadEvent>, runId: string, k: nat)
    requires k <= |stream| && (forall j :: 0 <= j < k ==> !Ends(stream[j], runId))
    requires k < |stream| ==> Ends(stream[k], runId)
    ensures EndAt(stream, runId) == k
  {
    var m := EndAt(stream, runId);
  }

  /** No event before the one that ends the run is terminal. */
  lemma OnlyLastTerminal(stream: seq<ThreadEvent>, runId: string)
    ensures var events := Own(Consumed(stream, runId), runId);
            forall j :: 0 <= j < |events| - 1 ==> !IsTerminal(events[j])
    ensures var events := Own(Consumed(stream, runId), runId); var k := EndAt(stream, runId);
            (k == |stream| || stream[k].ResyncRequired?) ==> forall j :: 0 <= j < |events| ==> !IsTerminal(events[j])
  {
    var k := EndAt(stream, runId);
    NoneTerminal(stream[..k], runId);
    if k < |stream| {
      assert stream[..k + 1][..k] == stream[..k];
    } else {
      assert stream[..k] == stream;
    }
  }

  lemma {:induction false} NoneTerminal(stream: seq<ThreadEvent>, runId: string)
    requires forall j :: 0 <= j < |stream| ==> !Ends(stream[j], runId)
    ensures forall j :: 0 <= j < |Own(stream, runId)| ==> !IsTerminal(Own(stream, runId)[j])
    decreases |stream|
  {
    if stream != [] {
      NoneTerminal(stream[..|stream| - 1], runId);
    }
  }

  // ----- What other traffic on the thread means for a run

  /** Deleting all snapshots and all other runs' events from the stream leaves the result as it is. */
  lemma OthersDoNotMatter(initial: ThreadSnapshot, stream: seq<ThreadEvent>, ending: Ending, runId: string,
                          reread: Option<ThreadSnapshot>)
    ensures Buffered(initial, Relevant(stream, runId), ending, runId, reread)
         == Buffered(initial, stream, ending, runId, reread)
  {
    hide Consumed, StopOf, Own, Relevant;
    RelevantSuffices(stream, ending, runId);
  }

  /** Deleting all snapshots and all other runs' events changes neither what the run yields nor how it
      stops. */
  lemma RelevantSuffices(stream: seq<ThreadEvent>, ending: Ending, runId: string)
    ensures Own(Consumed(Relevant(stream, runId), runId), runId) == Own(Consumed(stream, runId), runId)
    ensures StopOf(Relevant(stream, runId), ending, runId) == StopOf(stream, ending, runId)
  {
    hide Own, Relevant, EndAt, Ends;
    var k := EndAt(stream, runId);
    RelevantOwn(stream, runId);
    NoEndBefore(stream[..k], runId);
    if k == |stream| {
      assert stream[..k] == stream;
      EndIs(Relevant(stream, runId), runId, |Relevant(stream, runId)|);
    } else {
      EndShows(stream, k, runId);
      var before := Relevant(stream[..k], runId);
      var relevant := Relevant(stream, runId);
      EndIs(relevant, runId, |before|);
      RelevantOwn(stream[..k + 1], runId);
    }
  }

  /** The event that ends a run is relevant to it, and what is relevant up to it is a prefix of what is
      relevant at all. */
  lemma EndShows(stream: seq<ThreadEvent>, k: nat, runId: string)
    requires k < |stream| && Ends(stream[k], runId)
    ensures var before, relevant := Relevant(stream[..k], runId), Relevant(stream, runId);
            && |before| < |relevant| && relevant[|before|] == stream[k] && relevant[..|before|] == before
            && relevant[..|before| + 1] == Relevant(stream[..k + 1], runId)
            && forall j :: 0 <= j < |before| ==> relevant[j] == before[j]
  {
    hide Relevant, Ends;
    assert Concerns(stream[k], runId) by {
      EndConcerns(stream[k], runId);
    }
    var before, at, rest := stream[..k], [stream[k]], stream[k + 1..];
    assert stream == before + at + rest && stream[..k + 1] == before + at;
    RelevantConcat(before + at, rest, runId);
    RelevantConcat(before, at, runId);
    RelevantOne(stream[k], runId);
  }

  lemma EndConcerns(event: ThreadEvent, runId: string)
    requires Ends(event, runId)
    ensures Concerns(event, runId)
  {
  }

  lemma RelevantOne(event: ThreadEvent, runId: string)
    requires Concerns(event, runId)
    ensures Relevant([event], runId) == [event]
  {
    assert [event][..0] == [];
  }

  lemma OwnNext(stream: seq<ThreadEvent>, event: ThreadEvent, runId: string)
    ensures Own(stream + [event], runId) ==
              Own(stream, runId) + if event.OfRun? && event.runId == Some(runId) then [event.event] else []
  {
    assert (stream + [event])[..|stream|] == stream;
  }

  lemma {:induction false} RelevantOwn(stream: seq<ThreadEvent>, runId: string)
    ensures Own(Relevant(stream, runId), runId) == Own(stream, runId)
    decreases |stream|
  {
    if stream != [] {
      var front, last := stream[..|stream| - 1], stream[|stream| - 1];
      RelevantOwn(front, runId);
      OwnNext(Relevant(front, runId), last, runId);
    }
  }

  lemma {:induction false} RelevantConcat(a: seq<ThreadEvent>, b: seq<ThreadEvent>, runId: string)
    ensures Relevant(a + b, runId) == Relevant(a, runId) + Relevant(b, runId)
    decreases |b|
  {
    if b == [] {
      assert a + b == a;
    } else {
      assert (a + b)[..|a + b| - 1] == a + b[..|b| - 1];
      RelevantConcat(a, b[..|b| - 1], runId);
    }
  }

  lemma {:induction false} NoEndBefore(stream: seq<ThreadEvent>, runId: string)
    requires forall j :: 0 <= j < |stream| ==> !Ends(stream[j], runId)
    ensures forall j :: 0 <= j < |Relevant(stream, runId)| ==> !Ends(Relevant(stream, runId)[j], runId)
    decreases |stream|
  {
    if stream != [] {
      NoEndBefore(stream[..|stream| - 1], runId);
    }
  }

  /** Once a run has ended nothing that arrives later, and no way the stream may end, changes its result. */
  lemma LaterEventsDoNotMatter(initial: ThreadSnapshot, s: seq<ThreadEvent>, more: seq<ThreadEvent>,
                               ending: Ending, later: Ending, runId: string, reread: Option<ThreadSnapshot>)
    requires EndAt(s, runId) < |s|
    ensures Buffered(initial, s + more, later, runId, reread) == Buffered(initial, s, ending, runId, reread)
  {
    hide Own;
    var k := EndAt(s, runId);
    EndIs(s + more, runId, k);
    assert (s + more)[..k + 1] == s[..k + 1];
  }

  /** A run is delivered from the stream alone exactly when a terminal event of the run arrives before any
      resync; its text is then the concatenation of the run's own text deltas, and nothing is read again. */
  lemma DeliveredExactly(initial: ThreadSnapshot, stream: seq<ThreadEvent>, ending: Ending, runId: string,
                         reread: Option<ThreadSnapshot>)
    ensures var outcome := Buffered(initial, stream, ending, runId, reread);
            (exists k :: TerminalFirst(stream, runId, k)) <==> outcome.Done? && outcome.snapshot.None?
    ensures forall k :: TerminalFirst(stream, runId, k) ==>
              var outcome := Buffered(initial, stream, ending, runId, reread);
              && outcome.events == Own(stream[..k + 1], runId)
              && outcome.finalText == NormalizeText(Deltas(Own(stream[..k], runId)))
  {
    hide Own, Deltas, LatestUsage;
    forall k | TerminalFirst(stream, runId, k)
      ensures var outcome := Buffered(initial, stream, ending, runId, reread);
              && outcome.Done? && outcome.snapshot.None?
              && outcome.events == Own(stream[..k + 1], runId)
              && outcome.finalText == NormalizeText(Deltas(Own(stream[..k], runId)))
    {
      GoingOn(stream, runId, k);
      EndIs(stream, runId, k);
      EndsOwn(stream, runId);
      OneMore(Own(stream[..k], runId), stream[k].event);
    }
    var outcome := Buffered(initial, stream, ending, runId, reread);
    if outcome.Done? && outcome.snapshot.None? {
      WentOn(stream, runId, EndAt(stream, runId));
      assert TerminalFirst(stream, runId, EndAt(stream, runId));
    }
  }

  /** The run is told its end: it completed, failed, or waits for the user. */
  predicate TellsEnd(event: ThreadEvent, runId: string) {
    && event.OfRun? && event.runId == Some(runId)
    && (event.event.Completed? || event.event.Failed? || event.event.WaitingUserInput?)
  }

  /** Neither its end nor a resync has come to the run. */
  predicate GoesOn(events: seq<ThreadEvent>, runId: string) {
    forall j | 0 <= j < |events| :: !events[j].ResyncRequired? && !TellsEnd(events[j], runId)
  }

  predicate TerminalFirst(stream: seq<ThreadEvent>, runId: string, k: int) {
    0 <= k < |stream| && TellsEnd(stream[k], runId) && GoesOn(stream[..k], runId)
  }

  lemma GoingOn(stream: seq<ThreadEvent>, runId: string, k: nat)
    requires k <= |stream| && GoesOn(stream[..k], runId)
    ensures forall j :: 0 <= j < k ==> !Ends(stream[j], runId)
  {
    forall j | 0 <= j < k ensures !Ends(stream[j], runId) {
      assert stream[..k][j] == stream[j];
    }
  }

  lemma WentOn(stream: seq<ThreadEvent>, runId: string, k: nat)
    requires k <= |stream| && forall j :: 0 <= j < k ==> !Ends(stream[j], runId)
    ensures GoesOn(stream[..k], runId)
  {
  }

  /** Text that was delivered before the stream broke off is never replaced by text from the snapshot. */
  lemma PartialTextIsKept(initial: ThreadSnapshot, stream: seq<ThreadEvent>, ending: Ending, runId: string,
                          reread: Option<ThreadSnapshot>)
    requires var outcome := Buffered(initial, stream, ending, runId, reread); outcome.Done?
    requires Deltas(Own(Consumed(stream, runId), runId)) != ""
    ensures Buffered(initial, stream, ending, runId, reread).finalText
         == Some(Deltas(Own(Consumed(stream, runId), runId)))
  {
    hide Own, Deltas, LatestUsage;
    EndsOwn(stream, runId);
  }

  // ----- The result in terms of the stream and the thread

  predicate IsOwn(event: ThreadEvent, runId: string) {
    event.OfRun? && event.runId == Some(runId)
  }

  function OwnOf(event: ThreadEvent, runId: string): seq<RunEvent> {
    if IsOwn(event, runId) then [event.event] else []
  }

  function TextOf(event: ThreadEvent, runId: string): string {
    if IsOwn(event, runId) && event.event.TextDelta? then event.event.text else ""
  }

  /** The text of the run's deltas, one event after the other. */
  function RunText(stream: seq<ThreadEvent>, runId: string): string {
    if stream == [] then "" else TextOf(stream[0], runId) + RunText(stream[1..], runId)
  }

  function OwnEvents(stream: seq<ThreadEvent>, runId: string): seq<RunEvent> {
    if stream == [] then [] else OwnOf(stream[0], runId) + OwnEvents(stream[1..], runId)
  }

  /** The usage that the last usage event of the run reports, if there is one. */
  predicate LastUsage(stream: seq<ThreadEvent>, runId: string, usage: Option<TokenUsage>) {
    if usage.None? then forall j | 0 <= j < |stream| :: !ReportsUsage(stream[j], runId)
    else exists i | 0 <= i < |stream| :: UsageAt(stream, runId, i, usage.value)
  }

  predicate ReportsUsage(event: ThreadEvent, runId: string) {
    IsOwn(event, runId) && event.event.Usage?
  }

  predicate UsageAt(stream: seq<ThreadEvent>, runId: string, i: nat, usage: TokenUsage) {
    && i < |stream| && stream[i] == OfRun(Some(runId), Usage(usage))
    && forall j | i < j < |stream| :: !ReportsUsage(stream[j], runId)
  }

  lemma {:induction false} FrontNext(stream: seq<ThreadEvent>, last: ThreadEvent, runId: string)
    ensures OwnEvents(stream + [last], runId) == OwnEvents(stream, runId) + OwnOf(last, runId)
    ensures RunText(stream + [last], runId) == RunText(stream, runId) + TextOf(last, runId)
  {
    hide OwnOf, TextOf, IsOwn;
    if stream == [] {
      assert stream + [last] == [last];
      OneFront(last, [], runId);
      NoneFront(runId);
      assert OwnOf(last, runId) + [] == [] + OwnOf(last, runId) && TextOf(last, runId) + "" == "" + TextOf(last, runId);
    } else {
      var first, rest := stream[0], stream[1..];
      FrontNext(rest, last, runId);
      OneFront(first, rest, runId);
      OneFront(first, rest + [last], runId);
      hide OwnEvents, RunText;
      assert stream == [first] + rest && stream + [last] == [first] + (rest + [last]);
      Associate(OwnOf(first, runId), OwnEvents(rest, runId), OwnOf(last, runId));
      Associate(TextOf(first, runId), RunText(rest, runId), TextOf(last, runId));
    }
  }

  lemma OneFront(first: ThreadEvent, rest: seq<ThreadEvent>, runId: string)
    ensures OwnEvents([first] + rest, runId) == OwnOf(first, runId) + OwnEvents(rest, runId)
    ensures RunText([first] + rest, runId) == TextOf(first, runId) + RunText(rest, runId)
  {
    assert ([first] + rest)[1..] == rest;
  }

  lemma NoneFront(runId: string)
    ensures OwnEvents([], runId) == [] && RunText([], runId) == ""
  {
  }

  lemma Associate<T>(a: seq<T>, b: seq<T>, c: seq<T>)
    ensures a + (b + c) == a + b + c
  {
  }

  lemma UsageNext(stream: seq<ThreadEvent>, last: ThreadEvent, runId: string, usage: Option<TokenUsage>)
    requires LastUsage(stream, runId, usage)
    ensures LastUsage(stream + [last], runId, if ReportsUsage(last, runId) then Some(last.event.usage) else usage)
  {
    var all := stream + [last];
    if ReportsUsage(last, runId) {
      assert UsageAt(all, runId, |stream|, last.event.usage);
    } else if usage.Some? {
      var i :| 0 <= i < |stream| && UsageAt(stream, runId, i, usage.value);
      assert UsageAt(all, runId, i, usage.value);
    }
  }

  /** The run's events, text and usage, as the result collects them, are those of the stream. */
  lemma {:induction false} OwnIsFromStream(stream: seq<ThreadEvent>, runId: string)
    ensures var own := Own(stream, runId);
            && own == OwnEvents(stream, runId) && Deltas(own) == RunText(stream, runId)
            && LastUsage(stream, runId, LatestUsage(own))
    decreases |stream|
  {
    hide LatestUsage, Deltas, Own, OwnEvents, RunText, LastUsage;
    if stream == [] {
      NothingYet();
      NoneFront(runId);
      NothingOwn(runId);
    } else {
      var n := |stream| - 1;
      var front, last := stream[..n], stream[n];
      assert stream == front + [last];
      OwnIsFromStream(front, runId);
      FrontNext(front, last, runId);
      UsageNext(front, last, runId, LatestUsage(Own(front, runId)));
      OwnNext(front, last, runId);
      var own := Own(front, runId);
      assert own + [] == own && RunText(front, runId) + "" == RunText(front, runId);
      if IsOwn(last, runId) {
        OneMore(own, last.event);
      }
    }
  }

  lemma NothingOwn(runId: string)
    ensures Own([], runId) == [] && LastUsage([], runId, None)
  {
  }

  function NonEmpty(text: string): Option<string> {
    if text == "" then None else Some(text)
  }

  /** A run told its end: the result is that of its terminal event, with the texts and events of the run up to
      it; a completed run has the event's usage, any other the usage reported last. */
  lemma TerminalDecides(initial: ThreadSnapshot, stream: seq<ThreadEvent>, ending: Ending, runId: string,
                        reread: Option<ThreadSnapshot>, k: nat) returns (usage: Option<TokenUsage>)
    requires TerminalFirst(stream, runId, k)
    ensures LastUsage(stream[..k], runId, usage)
    ensures Buffered(initial, stream, ending, runId, reread) ==
              var events, text := OwnEvents(stream[..k + 1], runId), NonEmpty(RunText(stream[..k], runId));
              match stream[k].event
              case Completed(total) => Done(RunCompleted, events, text, Some(total), None)
              case WaitingUserInput(request) => Done(RunAwaitingUserInput(request), events, text, usage, None)
              case Failed(error) => Done(RunFailed(error), events, text, usage, None)
              case _ => ThrowsOther
  {
    hide Own, Deltas, LatestUsage, OwnEvents, RunText, LastUsage;
    GoingOn(stream, runId, k);
    EndIs(stream, runId, k);
    EndsOwn(stream, runId);
    OneMore(Own(stream[..k], runId), stream[k].event);
    OwnIsFromStream(stream[..k], runId);
    OwnIsFromStream(stream[..k + 1], runId);
    usage := LatestUsage(Own(stream[..k], runId));
  }

  /** A resync is asked for before the run ends. */
  predicate ResyncFirst(stream: seq<ThreadEvent>, runId: string, k: int) {
    0 <= k < |stream| && stream[k].ResyncRequired? && GoesOn(stream[..k], runId)
  }

  /** The texts of the assistant messages, in order. */
  function AssistantTexts(messages: seq<Message>): seq<string> {
    if messages == [] then []
    else (if messages[0].role == Assistant then messages[0].texts else []) + AssistantTexts(messages[1..])
  }

  lemma {:induction false} JoinTextsConcat(a: seq<string>, b: seq<string>)
    ensures JoinTexts(a + b) == JoinTexts(a) + JoinTexts(b)
  {
    if a == [] {
      assert a + b == b;
    } else {
      assert (a + b)[1..] == a[1..] + b;
      JoinTextsConcat(a[1..], b);
    }
  }

  lemma {:induction false} TextOfAssistant(messages: seq<Message>)
    ensures MessagesToText(messages) == JoinTexts(AssistantTexts(messages))
  {
    if messages != [] {
      TextOfAssistant(messages[1..]);
      var head := if messages[0].role == Assistant then messages[0].texts else [];
      JoinTextsConcat(head, AssistantTexts(messages[1..]));
    }
  }

  predicate Reports(message: Message) {
    message.role == Assistant && message.usage.Some?
  }

  /** The usage of the assistant messages, each kind of token added up on its own. */
  function TotalUsage(messages: seq<Message>): TokenUsage {
    if messages == [] then TokenUsage(0, 0, 0, 0)
    else
      var rest := TotalUsage(messages[1..]);
      if !Reports(messages[0]) then rest
      else
        var u := messages[0].usage.value;
        TokenUsage(u.input + rest.input, u.output + rest.output, u.cacheCreation + rest.cacheCreation,
                   u.cacheRead + rest.cacheRead)
  }

  lemma {:induction false} TotalNext(messages: seq<Message>, last: Message)
    ensures TotalUsage(messages + [last]) ==
              if Reports(last) then AddUsage(TotalUsage(messages), last.usage.value) else TotalUsage(messages)
  {
    if messages == [] {
      assert messages + [last] == [last] && [last][1..] == [];
    } else {
      assert (messages + [last])[1..] == messages[1..] + [last];
      TotalNext(messages[1..], last);
    }
  }

  lemma {:induction false} UsageOfAssistant(messages: seq<Message>)
    ensures SumAssistantUsage(messages) ==
              if exists m <- messages :: Reports(m) then Some(TotalUsage(messages)) else None
    decreases |messages|
  {
    if messages != [] {
      var n := |messages| - 1;
      var front, last := messages[..n], messages[n];
      assert messages == front + [last];
      UsageOfAssistant(front);
      TotalNext(front, last);
      if forall m <- front :: !Reports(m) { NothingReported(front); }
    }
  }

  lemma {:induction false} NothingReported(messages: seq<Message>)
    requires forall m <- messages :: !Reports(m)
    ensures TotalUsage(messages) == TokenUsage(0, 0, 0, 0)
  {
    if messages != [] { NothingReported(messages[1..]); }
  }

  /** What has come into the thread since the run began. */
  function Appended(initial: ThreadSnapshot, latest: ThreadSnapshot): seq<Message> {
    if |initial.messages| <= |latest.messages| then latest.messages[|initial.messages|..] else []
  }

  /** The snapshot that is read again tells how this run ended. */
  function ToldStatus(latest: ThreadSnapshot, runId: string): Option<RunStatus> {
    if latest.runId.Some? && latest.runId != Some(runId) then None
    else match latest.status
      case Running => None
      case Idle => Some(RunCompleted)
      case AwaitingUserInput =>
        if latest.pendingUserInput.Some? then Some(RunAwaitingUserInput(latest.pendingUserInput.value)) else None
      case Interrupted => Some(RunInterrupted(latest.recoveryNote))
  }

  /** A run that was not told its end: the result is that of the thread read again, or an error. Text and usage
      are those of the stream, and those of the assistant messages appended since where the stream gave none. */
  lemma RereadDecides(initial: ThreadSnapshot, stream: seq<ThreadEvent>, ending: Ending, runId: string,
                      reread: Option<ThreadSnapshot>, resynced: bool, k: nat) returns (usage: Option<TokenUsage>)
    requires if resynced then ResyncFirst(stream, runId, k)
             else k == |stream| && GoesOn(stream, runId) && ending != OtherError
    ensures LastUsage(stream[..k], runId, usage)
    ensures Buffered(initial, stream, ending, runId, reread) ==
              if reread.None? then if resynced then ThrowsResync else ThrowsReconnect(None)
              else
                var latest, told := reread.value, ToldStatus(reread.value, runId);
                var appended, text := Appended(initial, reread.value), RunText(stream[..k], runId);
                if told.None? then ThrowsReconnect(reread)
                else
                  Done(told.value, OwnEvents(stream[..k], runId),
                       NonEmpty(if text != "" then text else JoinTexts(AssistantTexts(appended))),
                       if usage.Some? then usage
                       else if exists m <- appended :: Reports(m) then Some(TotalUsage(appended)) else None,
                       reread)
  {
    hide Own, Deltas, LatestUsage, OwnEvents, RunText, LastUsage, TotalUsage, Reports, SumAssistantUsage,
         MessagesToText, JoinTexts, AssistantTexts;
    assert k == |stream| ==> stream[..k] == stream;
    GoingOn(stream, runId, k);
    EndIs(stream, runId, k);
    OwnIsFromStream(stream[..k], runId);
    usage := LatestUsage(Own(stream[..k], runId));
    NotOwnEnd(stream, runId, k);
    if reread.Some? {
      TextOfAssistant(Appended(initial, reread.value));
      UsageOfAssistant(Appended(initial, reread.value));
    }
  }

  lemma NotOwnEnd(stream: seq<ThreadEvent>, runId: string, k: nat)
    requires k == |stream| || ResyncFirst(stream, runId, k)
    requires EndAt(stream, runId) == k
    ensures Own(Consumed(stream, runId), runId) == Own(stream[..k], runId)
  {
    if k < |stream| {
      assert stream[..k + 1][..k] == stream[..k];
    } else {
      assert stream[..k] == stream;
    }
  }

  /** Any other error goes to the caller. */
  lemma OtherErrorThrows(initial: ThreadSnapshot, stream: seq<ThreadEvent>, runId: string,
                         reread: Option<ThreadSnapshot>)
    requires GoesOn(stream, runId)
    ensures Buffered(initial, stream, OtherError, runId, reread) == ThrowsOther
  {
    hide Own;
    assert stream[..|stream|] == stream;
    GoingOn(stream, runId, |stream|);
    EndIs(stream, runId, |stream|);
  }

  /** The snapshot remembered is the last one of the stream, or the one known before when there is none. */
  lemma {:induction false} LastSnapshotExactly(known: ThreadSnapshot, stream: seq<ThreadEvent>)
    ensures var s := LastSnapshot(known, stream);
            || (s == known && forall i | 0 <= i < |stream| :: !stream[i].Snapshot?)
            || exists i | 0 <= i < |stream| ::
                 stream[i] == Snapshot(s) && forall j | i < j < |stream| :: !stream[j].Snapshot?
    decreases |stream|
  {
    if stream != [] {
      var n := |stream| - 1;
      LastSnapshotExactly(known, stream[..n]);
      if !stream[n].Snapshot? && !(forall i | 0 <= i < n :: !stream[..n][i].Snapshot?) {
        var s := LastSnapshot(known, stream[..n]);
        var i :| 0 <= i < n && stream[..n][i] == Snapshot(s)
                 && forall j | i < j < n :: !stream[..n][j].Snapshot?;
        assert stream[i] == Snapshot(s);
        assert forall j | i < j < |stream| :: j == n || stream[j] == stream[..n][j];
      }
    }
  }
}
