/** Requests to a language server and the task that reads its answers, as interleaved steps on the shared
    table of pending requests. */
module LspRequests {
  import opened Options

  /** A message read from the server: the id it answers, if any, and what it says. */
  datatype Message = Message(id: Option<int>, payload: string)

  /** What a caller's channel can carry: the answer read as message `index`, or the reader's error. */
  datatype Response = Answer(index: nat, payload: string) | ReaderError

  datatype Phase = Allocated | Registered | Sent | SendFailed | Returned(response: Response)

  /** One call of `request`: its id, how far it is, its channel, and how many messages had been read when
      it entered the table. */
  datatype Call = Call(id: int, phase: Phase, slot: Option<Response>, since: nat)

  datatype Reader = Reading | Ended | Broken

  datatype State = State(nextId: int, calls: seq<Call>, pending: map<int, nat>, reader: Reader, seen: seq<Message>)

  const INITIAL := State(1, [], map[], Reading, [])

  datatype Step =
    | Begin
    | Register(call: nat)
    | SendSucceeds(call: nat)
    | SendFails(call: nat)
    | Receive(call: nat)
    | Read(message: Message)
    | ReadEnds
    | ReadBreaks

  predicate InPhase(s: State, call: nat, phase: Phase) {
    call < |s.calls| && s.calls[call].phase == phase
  }

  predicate Enabled(s: State, step: Step) {
    match step
    case Begin => true
    case Register(call) => InPhase(s, call, Allocated)
    case SendSucceeds(call) => InPhase(s, call, Registered)
    case SendFails(call) => InPhase(s, call, Registered)
    case Receive(call) => InPhase(s, call, Sent) && s.calls[call].slot.Some?
    case Read(_) => s.reader == Reading
    case ReadEnds => s.reader == Reading
    case ReadBreaks => s.reader == Reading
  }

  predicate TableInRange(s: State) {
    forall id | id in s.pending :: s.pending[id] < |s.calls|
  }

  function WithCall(s: State, call: nat, c: Call): State
    requires call < |s.calls|
  {
    s.(calls := s.calls[call := c])
  }

  /** Every pending caller's channel gets the reader's error. */
  function Drained(s: State): seq<Call> {
    seq(|s.calls|, i requires 0 <= i < |s.calls| =>
      if s.calls[i].id in s.pending && s.pending[s.calls[i].id] == i then s.calls[i].(slot := Some(ReaderError))
      else s.calls[i])
  }

  function Next(s: State, step: Step): State
    requires Enabled(s, step) && TableInRange(s)
  {
    match step
    case Begin => s.(nextId := s.nextId + 1, calls := s.calls + [Call(s.nextId, Allocated, None, 0)])
    case Register(call) =>
      var c := s.calls[call];
      WithCall(s, call, c.(phase := Registered, since := |s.seen|)).(pending := s.pending[c.id := call])
    case SendSucceeds(call) => WithCall(s, call, s.calls[call].(phase := Sent))
    case SendFails(call) =>
      var c := s.calls[call];
      WithCall(s, call, c.(phase := SendFailed)).(pending := s.pending - {c.id})
    case Receive(call) =>
      var c := s.calls[call];
      WithCall(s, call, c.(phase := Returned(c.slot.value)))
    case Read(message) =>
      var read := s.(seen := s.seen + [message]);
      if message.id.None? || message.id.value !in s.pending then read
      else
        var id := message.id.value;
        assert id in s.pending;
        var call := s.pending[id];
        WithCall(read, call, s.calls[call].(slot := Some(Answer(|s.seen|, message.payload))))
          .(pending := s.pending - {id})
    case ReadEnds => s.(reader := Ended)
    case ReadBreaks => s.(reader := Broken, calls := Drained(s), pending := map[])
  }

  // ----- What every reachable state satisfies

  predicate Carries(m: Message, id: int) {
    m.id == Some(id)
  }

  predicate Waiting(c: Call) {
    (c.phase == Registered || c.phase == Sent) && c.slot.None?
  }

  /** The channel of a call holds the first message with its id read since it was registered. */
  predicate SlotInv(c: Call, seen: seq<Message>) {
    && c.since <= |seen|
    && (c.phase == Allocated ==> c.slot.None?)
    && (c.phase.Returned? ==> c.slot == Some(c.phase.response))
    && (Waiting(c) || c.slot == Some(ReaderError) ==> forall j :: c.since <= j < |seen| ==> !Carries(seen[j], c.id))
    && (c.slot.Some? && c.slot.value.Answer? ==>
          var m := c.slot.value.index;
          && c.since <= m < |seen| && Carries(seen[m], c.id) && seen[m].payload == c.slot.value.payload
          && forall j :: c.since <= j < m ==> !Carries(seen[j], c.id))
  }

  /** Ids are given out in increasing order. */
  ghost predicate IdsInv(s: State) {
    && (forall i :: 0 <= i < |s.calls| ==> s.calls[i].id < s.nextId)
    && (forall i, j :: 0 <= i < j < |s.calls| ==> s.calls[i].id < s.calls[j].id)
  }

  /** The table holds exactly the calls that wait, unless the reader broke. */
  ghost predicate TableInv(s: State) {
    && (forall id | id in s.pending :: s.pending[id] < |s.calls| && s.calls[s.pending[id]].id == id
                                       && Waiting(s.calls[s.pending[id]]))
    && (forall i :: 0 <= i < |s.calls| && Waiting(s.calls[i]) ==>
          s.calls[i].id in s.pending && s.pending[s.calls[i].id] == i)
  }

  ghost predicate SlotsInv(s: State) {
    forall i :: 0 <= i < |s.calls| ==> SlotInv(s.calls[i], s.seen)
  }

  /** Errors come from a reader that broke, and it reads no more. */
  ghost predicate ErrorsInv(s: State) {
    forall i :: 0 <= i < |s.calls| && s.calls[i].slot == Some(ReaderError) ==> s.reader == Broken
  }

  ghost predicate Inv(s: State) {
    IdsInv(s) && TableInv(s) && SlotsInv(s) && ErrorsInv(s)
  }

  lemma InitialInv()
    ensures Inv(INITIAL)
  {
  }

  lemma StepKeepsIds(s: State, step: Step)
    requires Inv(s) && Enabled(s, step)
    ensures IdsInv(Next(s, step))
  {
    hide SlotInv, Waiting;
    var t := Next(s, step);
    forall i | 0 <= i < |t.calls| ensures t.calls[i].id == if i < |s.calls| then s.calls[i].id else s.nextId {
    }
  }

  lemma StepKeepsTable(s: State, step: Step)
    requires Inv(s) && Enabled(s, step)
    ensures TableInv(Next(s, step))
  {
    hide IdsInv, TableInv, SlotsInv, TableInRange, Next;
    TableIsInRange(s);
    match step
    case Begin => BeginKeepsTable(s);
    case Register(call) => RegisterKeepsTable(s, call);
    case SendSucceeds(call) => SentKeepsTable(s, call);
    case SendFails(call) => SendFailureKeepsTable(s, call);
    case Receive(call) => ReceiveKeepsTable(s, call);
    case Read(message) => ReadKeepsTable(s, message);
    case ReadEnds => StopKeepsTable(s, ReadEnds);
    case ReadBreaks => StopKeepsTable(s, ReadBreaks);
  }

  lemma TableIsInRange(s: State)
    requires TableInv(s)
    ensures TableInRange(s)
  {
  }

  lemma BeginKeepsTable(s: State)
    requires TableInv(s) && TableInRange(s)
    ensures TableInv(Next(s, Begin))
  {
    hide Drained;
    var t := Next(s, Begin);
    assert forall i :: 0 <= i < |s.calls| ==> t.calls[i] == s.calls[i];
  }

  lemma RegisterKeepsTable(s: State, call: nat)
    requires Inv(s) && Enabled(s, Register(call))
    ensures TableInv(Next(s, Register(call)))
  {
    hide SlotInv, Drained;
    assert SlotInv(s.calls[call], s.seen);
    EmptySlot(s.calls[call], s.seen);
    var t := Next(s, Register(call));
    assert forall i :: 0 <= i < |s.calls| && i != call ==> t.calls[i] == s.calls[i];
    assert s.calls[call].id !in s.pending;
  }

  lemma SentKeepsTable(s: State, call: nat)
    requires TableInv(s) && TableInRange(s) && Enabled(s, SendSucceeds(call))
    ensures TableInv(Next(s, SendSucceeds(call)))
  {
    hide Drained;
    var t := Next(s, SendSucceeds(call));
    assert forall i :: 0 <= i < |s.calls| ==>
                         Waiting(t.calls[i]) == Waiting(s.calls[i]) && t.calls[i].id == s.calls[i].id;
  }

  lemma SendFailureKeepsTable(s: State, call: nat)
    requires IdsInv(s) && TableInv(s) && TableInRange(s) && Enabled(s, SendFails(call))
    ensures TableInv(Next(s, SendFails(call)))
  {
    hide Drained;
    var t := Next(s, SendFails(call));
    assert forall i :: 0 <= i < |s.calls| && i != call ==>
                         t.calls[i] == s.calls[i] && s.calls[i].id != s.calls[call].id;
  }

  lemma ReceiveKeepsTable(s: State, call: nat)
    requires TableInv(s) && TableInRange(s) && Enabled(s, Receive(call))
    ensures TableInv(Next(s, Receive(call)))
  {
    hide Drained;
    var t := Next(s, Receive(call));
    assert forall i :: 0 <= i < |s.calls| ==>
                         Waiting(t.calls[i]) == Waiting(s.calls[i]) && t.calls[i].id == s.calls[i].id;
  }

  lemma ReadKeepsTable(s: State, message: Message)
    requires IdsInv(s) && TableInv(s) && TableInRange(s) && Enabled(s, Read(message))
    ensures TableInv(Next(s, Read(message)))
  {
    hide Drained;
    var t := Next(s, Read(message));
    if message.id.Some? && message.id.value in s.pending {
      var call := s.pending[message.id.value];
      assert forall i :: 0 <= i < |s.calls| && i != call ==>
                         t.calls[i] == s.calls[i] && s.calls[i].id != s.calls[call].id;
    }
  }

  lemma StopKeepsTable(s: State, step: Step)
    requires TableInv(s) && TableInRange(s) && Enabled(s, step) && (step == ReadEnds || step == ReadBreaks)
    ensures TableInv(Next(s, step))
  {
  }

  lemma EmptySlot(c: Call, seen: seq<Message>)
    requires SlotInv(c, seen)
    ensures c.phase == Allocated ==> c.slot.None?
  {
  }

  lemma StepKeepsSlots(s: State, step: Step)
    requires Inv(s) && Enabled(s, step)
    ensures SlotsInv(Next(s, step))
  {
    hide SlotInv;
    var t := Next(s, step);
    match step
    case Read(message) =>
      forall i | 0 <= i < |t.calls| ensures SlotInv(t.calls[i], t.seen) {
        ReadKeepsSlot(s, message, i);
      }
    case ReadBreaks =>
      forall i | 0 <= i < |t.calls| ensures SlotInv(t.calls[i], t.seen) {
        BreakKeepsSlot(s.calls[i], s.seen);
      }
    case Begin =>
      assert forall i :: 0 <= i < |s.calls| ==> t.calls[i] == s.calls[i];
      FreshSlot(s.nextId, s.seen);
    case ReadEnds =>
    case Register(call) => CallStepKeepsSlot(s, step, call);
    case SendSucceeds(call) => CallStepKeepsSlot(s, step, call);
    case SendFails(call) => CallStepKeepsSlot(s, step, call);
    case Receive(call) => CallStepKeepsSlot(s, step, call);
  }

  lemma FreshSlot(id: int, seen: seq<Message>)
    ensures SlotInv(Call(id, Allocated, None, 0), seen)
  {
  }

  predicate StepOf(step: Step, call: nat) {
    step == Register(call) || step == SendSucceeds(call) || step == SendFails(call) || step == Receive(call)
  }

  lemma CallStepKeepsSlot(s: State, step: Step, call: nat)
    requires SlotsInv(s) && TableInRange(s) && Enabled(s, step) && StepOf(step, call)
    ensures SlotsInv(Next(s, step))
  {
    var t := Next(s, step);
    assert SlotInv(s.calls[call], s.seen);
    assert SlotInv(t.calls[call], t.seen);
    hide SlotInv;
    assert forall i :: 0 <= i < |s.calls| && i != call ==> t.calls[i] == s.calls[i];
  }

  /** A message goes to the call that waits for it and to no other. */
  lemma ReadKeepsSlot(s: State, message: Message, i: nat)
    requires Inv(s) && s.reader == Reading && i < |s.calls|
    ensures SlotInv(Next(s, Read(message)).calls[i], s.seen + [message])
  {
    var c, d := s.calls[i], Next(s, Read(message)).calls[i];
    assert SlotInv(c, s.seen);
    if Carries(message, c.id) && Waiting(c) {
      assert s.pending[c.id] == i;
      Answered(c, s.seen, message);
    } else {
      assert d == c;
      SlotGrows(c, s.seen, message);
    }
  }

  lemma Answered(c: Call, seen: seq<Message>, message: Message)
    requires SlotInv(c, seen) && Waiting(c) && Carries(message, c.id)
    ensures SlotInv(c.(slot := Some(Answer(|seen|, message.payload))), seen + [message])
  {
  }

  lemma SlotGrows(c: Call, seen: seq<Message>, message: Message)
    requires SlotInv(c, seen) && !(Carries(message, c.id) && Waiting(c)) && c.slot != Some(ReaderError)
    ensures SlotInv(c, seen + [message])
  {
  }

  lemma BreakKeepsSlot(c: Call, seen: seq<Message>)
    requires SlotInv(c, seen)
    ensures Waiting(c) ==> SlotInv(c.(slot := Some(ReaderError)), seen)
  {
  }

  lemma StepKeepsErrors(s: State, step: Step)
    requires Inv(s) && Enabled(s, step)
    ensures ErrorsInv(Next(s, step))
  {
    hide SlotInv, IdsInv, SlotsInv, Waiting;
    var t := Next(s, step);
    forall i | 0 <= i < |t.calls| && t.calls[i].slot == Some(ReaderError) ensures t.reader == Broken {
      if i < |s.calls| && t.calls[i].slot != s.calls[i].slot {
        assert step == ReadBreaks;
      }
    }
  }

  // ----- Whole runs

  predicate Runs(s: State, steps: seq<Step>)
    decreases |steps|
  {
    steps == [] || (TableInRange(s) && Enabled(s, steps[0]) && Runs(Next(s, steps[0]), steps[1..]))
  }

  function After(s: State, steps: seq<Step>): State
    requires Runs(s, steps)
    decreases |steps|
  {
    if steps == [] then s else After(Next(s, steps[0]), steps[1..])
  }

  lemma StepKeepsInv(s: State, step: Step)
    requires Inv(s) && Enabled(s, step)
    ensures Inv(Next(s, step))
  {
    StepKeepsIds(s, step);
    StepKeepsTable(s, step);
    StepKeepsSlots(s, step);
    StepKeepsErrors(s, step);
  }

  lemma {:induction false} RunKeepsInv(s: State, steps: seq<Step>)
    requires Inv(s) && Runs(s, steps)
    ensures Inv(After(s, steps))
    decreases |steps|
  {
    hide Inv, Next;
    if steps != [] {
      StepKeepsInv(s, steps[0]);
      RunKeepsInv(Next(s, steps[0]), steps[1..]);
    }
  }

  /** However callers and reader interleave, a call that returns an answer returns the first message with
      its own id read since it entered the table. */
  lemma AnswersAreOwn(steps: seq<Step>, call: nat)
    requires Runs(INITIAL, steps) && call < |After(INITIAL, steps).calls|
    ensures var s := After(INITIAL, steps); var c := s.calls[call];
            c.phase.Returned? && c.phase.response.Answer? ==>
              var m := c.phase.response.index;
              && m < |s.seen| && s.seen[m] == Message(Some(c.id), c.phase.response.payload)
              && c.since <= m && forall j :: c.since <= j < m ==> s.seen[j].id != Some(c.id)
  {
    InitialInv();
    RunKeepsInv(INITIAL, steps);
    var s := After(INITIAL, steps);
    var c := s.calls[call];
    assert SlotInv(c, s.seen);
    if c.phase.Returned? && c.phase.response.Answer? {
      var m := c.phase.response.index;
      forall j | c.since <= j < m ensures s.seen[j].id != Some(c.id) {
        assert !Carries(s.seen[j], c.id);
      }
    }
  }

  /** The channel of a call in the table or sent, or that has returned, holds an answer exactly when a message
      with its id has been read since it entered the table; a call that is sent can then return. */
  lemma AnswersArriveExactly(steps: seq<Step>, call: nat)
    requires Runs(INITIAL, steps) && call < |After(INITIAL, steps).calls|
    requires var c := After(INITIAL, steps).calls[call]; c.phase == Registered || c.phase == Sent || c.phase.Returned?
    ensures var s := After(INITIAL, steps); var c := s.calls[call];
            && (c.slot.Some? && c.slot.value.Answer? <==>
                  exists j :: c.since <= j < |s.seen| && Carries(s.seen[j], c.id))
            && (c.slot.Some? && c.phase == Sent ==> Enabled(s, Receive(call)))
  {
    InitialInv();
    RunKeepsInv(INITIAL, steps);
    hide Carries, Runs, After;
    var s := After(INITIAL, steps);
    assert SlotInv(s.calls[call], s.seen);
  }

  /** No message answers two calls. */
  lemma AnswersAreNotShared(steps: seq<Step>, a: nat, b: nat)
    requires Runs(INITIAL, steps) && a < b < |After(INITIAL, steps).calls|
    ensures var s := After(INITIAL, steps);
            s.calls[a].slot.Some? && s.calls[a].slot.value.Answer? ==> s.calls[b].slot != s.calls[a].slot
  {
    InitialInv();
    RunKeepsInv(INITIAL, steps);
    var s := After(INITIAL, steps);
    assert SlotInv(s.calls[a], s.seen) && SlotInv(s.calls[b], s.seen);
    assert s.calls[a].id < s.calls[b].id;
  }

  lemma SlotsLast(s: State, step: Step, call: nat)
    requires Inv(s) && Enabled(s, step) && call < |s.calls|
    ensures call < |Next(s, step).calls|
    ensures s.calls[call].slot.Some? ==> Next(s, step).calls[call].slot == s.calls[call].slot
    ensures s.reader != Reading ==>
              Next(s, step).reader == s.reader && Next(s, step).calls[call].slot == s.calls[call].slot
  {
    hide SlotInv;
  }

  /** What a channel holds it holds for good. */
  lemma {:induction false} AnswersAreFinal(s: State, steps: seq<Step>, call: nat)
    requires Inv(s) && Runs(s, steps) && call < |s.calls| && s.calls[call].slot.Some?
    ensures call < |After(s, steps).calls| && After(s, steps).calls[call].slot == s.calls[call].slot
    decreases |steps|
  {
    hide Inv, Next;
    if steps != [] {
      SlotsLast(s, steps[0], call);
      StepKeepsInv(s, steps[0]);
      AnswersAreFinal(Next(s, steps[0]), steps[1..], call);
    }
  }

  /** A reader that breaks wakes every waiting call. */
  lemma BreakLeavesNoneWaiting(s: State)
    requires Inv(s) && s.reader == Reading
    ensures forall call :: 0 <= call < |s.calls| ==> !Waiting(Next(s, ReadBreaks).calls[call])
  {
    hide SlotInv;
  }

  /** Once the reader has stopped, an empty channel stays empty: after a clean end of input the calls still
      waiting, and after either kind of stop those made later, never return. */
  lemma {:induction false} StoppedReaderAnswersNobody(s: State, steps: seq<Step>, call: nat)
    requires Inv(s) && Runs(s, steps) && s.reader != Reading
    requires call < |s.calls| && s.calls[call].slot.None?
    ensures call < |After(s, steps).calls| && After(s, steps).calls[call].slot.None?
    ensures !After(s, steps).calls[call].phase.Returned?
    decreases |steps|
  {
    hide Next;
    if steps == [] {
      assert SlotInv(s.calls[call], s.seen);
    } else {
      SlotsLast(s, steps[0], call);
      StepKeepsInv(s, steps[0]);
      StoppedReaderAnswersNobody(Next(s, steps[0]), steps[1..], call);
    }
  }
}
