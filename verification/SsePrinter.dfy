/** The mock service's event printer, matched against the event parser. */
module SsePrinter {
  import opened Options
  import opened Strings
  import opened Search
  import opened Bytes
  import opened SseFraming
  import opened SseEvents
  import Rows

  datatype Event = Event(name: string, payload: string)

  function Block(e: Event): string {
    "event: " + e.name + "\n" + ("data: " + e.payload)
  }

  function Printed(events: seq<Event>): string {
    if events == [] then "" else Block(events[0]) + "\n\n" + Printed(events[1..])
  }

  /** `append_sse`. */
  method AppendSse(buffer: string, event: string, payload: string) returns (longer: string)
    ensures longer == buffer + (Block(Event(event, payload)) + "\n\n")
  {
    longer := buffer + ("event: " + event + "\n");
    longer := longer + ("data: " + payload + "\n");
    longer := longer + "\n";
  }

  lemma {:induction false} PrintedAppend(events: seq<Event>, e: Event)
    ensures Printed(events + [e]) == Printed(events) + (Block(e) + "\n\n")
  {
    if events == [] {
      assert Printed([e]) == Block(e) + "\n\n" + "";
    } else {
      assert (events + [e])[1..] == events[1..] + [e];
      PrintedAppend(events[1..], e);
    }
  }

  /** A response body, as the builders write it event by event. */
  method PrintBody(events: seq<Event>) returns (body: string)
    ensures body == Printed(events)
  {
    body := "";
    for i := 0 to |events|
      invariant body == Printed(events[..i])
    {
      assert events[..i + 1] == events[..i] + [events[i]];
      PrintedAppend(events[..i], events[i]);
      body := AppendSse(body, events[i].name, events[i].payload);
    }
    assert events[..|events|] == events;
  }

  /** Names without newlines; payloads as JSON values print: no newline, no white space at the edges. */
  predicate Printable(e: Event) {
    && '\n' !in e.name && '\n' !in e.payload
    && e.payload != "" && !IsWhitespace(e.payload[0]) && !IsWhitespace(e.payload[|e.payload| - 1])
  }

  // ----- The text of a block comes back as its payload

  lemma TrimTight(s: string)
    requires s != "" && !IsWhitespace(s[0]) && !IsWhitespace(s[|s| - 1])
    ensures Trim(s) == s
  {
  }

  lemma {:induction false} TrimStartCR(s: string)
    ensures TrimStart(s + "\r") == "" ==> TrimEnd(TrimStart(s)) == ""
    ensures TrimStart(s + "\r") != "" ==> TrimStart(s + "\r") == TrimStart(s) + "\r"
  {
    if s == "" {
      assert s + "\r" == "\r" && "\r"[1..] == "";
    } else {
      assert (s + "\r")[1..] == s[1..] + "\r";
      if IsWhitespace(s[0]) { TrimStartCR(s[1..]); }
    }
  }

  lemma TrimStripCR(s: string)
    ensures Trim(StripCR(s)) == Trim(s)
  {
    if EndsWith(s, "\r") {
      var t := s[..|s| - 1];
      assert s == t + "\r";
      TrimStartCR(t);
      if TrimStart(s) != "" {
        assert (TrimStart(t) + "\r")[..|TrimStart(t)|] == TrimStart(t);
      }
    }
  }

  lemma TrimLeadingSpace(s: string)
    ensures Trim(" " + s) == Trim(s) && TrimStart(" " + s) == TrimStart(s)
  {
    assert (" " + s)[1..] == s;
  }

  /** What the parser makes of a printed block: the payload, unless the event is a ping or the stream's
      end mark. */
  function Delivered(e: Event): Option<string> {
    if Trim(e.name) == "ping" || e.payload == "[DONE]" then None else Some(e.payload)
  }

  lemma BlockLines(e: Event)
    requires Printable(e)
    ensures Trim(Block(e)) == Block(e)
    ensures Lines(Block(e)) == [StripCR("event: " + e.name), "data: " + e.payload]
  {
    var first, second := "event: " + e.name, "data: " + e.payload;
    BlockTrims(e);
    assert Rows.Flat(first) && Rows.Flat(second);
    hide Rows.Split, Rows.Flat, Trim, TrimEnd, Printable;
    Rows.SplitFlat(first);
    Rows.SplitFlat(second);
    Rows.SplitConcat(first, second);
    assert Rows.Split(Block(e)) == [first, second];
    assert Rows.Split(Block(e))[..1] == [first];
  }

  lemma BlockTrims(e: Event)
    requires Printable(e)
    ensures Trim(Block(e)) == Block(e)
  {
    hide Trim, TrimEnd, Rows.Flat;
    TrimTight(Block(e));
  }

  lemma StripCREvent(name: string)
    ensures StartsWith(StripCR("event: " + name), "event:")
    ensures StripCR("event: " + name)[6..] == StripCR(" " + name)
  {
    var whole, tail := "event: " + name, " " + name;
    assert whole == "event:" + tail;
  }

  lemma BlockPayload(e: Event)
    requires Printable(e)
    ensures Payload(Block(e)) == Delivered(e)
  {
    BlockLines(e);
    StripCREvent(e.name);
    TrimStripCR(" " + e.name);
    TrimLeadingSpace(e.name);
    TrimLeadingSpace(e.payload);
    var first, second := StripCR("event: " + e.name), "data: " + e.payload;
    FieldsOfTwo(first, second);
    assert second[5..] == " " + e.payload;
    assert TrimStart(e.payload) == e.payload;
    assert Block(e) != "";
    assert Rows.Join([e.payload]) == e.payload;
    hide Trim, TrimStart, StripCR, Lines, FieldsOf, Block, Rows.Join;
  }

  lemma FieldsOfTwo(first: string, second: string)
    requires StartsWith(first, "event:") && StartsWith(second, "data:")
    ensures FieldsOf([first, second]) == Fields(Some(Trim(first[6..])), [TrimStart(second[5..])])
  {
    hide Trim;
    assert first[0] == 'e' && second[0] == 'd';
    assert [first][..0] == [];
    assert FieldsOf([first]) == AddLine(FieldsOf([]), first);
    assert [first, second][..1] == [first];
    assert FieldsOf([first, second]) == AddLine(FieldsOf([first]), second);
  }

  // ----- The bytes of a block are one frame

  lemma LineFeedFree(s: string)
    requires '\n' !in s
    ensures forall i :: 0 <= i < |Encode(s)| ==> Encode(s)[i] != LF
  {
    AsciiOnlyFromItself(s, '\n');
  }

  lemma EncodeBlock(e: Event)
    ensures Encode(Block(e)) == Encode("event: " + e.name) + [LF] + Encode("data: " + e.payload)
    ensures Encode("data: " + e.payload) != [] && Encode("data: " + e.payload)[0] == 'd' as int
  {
    EncodeConcat("event: " + e.name + "\n", "data: " + e.payload);
    EncodeConcat("event: " + e.name, "\n");
    EncodeOne('\n');
  }

  /** Two line-feed-free stretches with one line feed between them hold no blank line, so the two line
      feeds after them are the first. */
  lemma FirstBlankLine(a: seq<byte>, b: seq<byte>, rest: seq<byte>)
    requires b != [] && (forall i :: 0 <= i < |a| ==> a[i] != LF) && (forall i :: 0 <= i < |b| ==> b[i] != LF)
    ensures var block := a + [LF] + b;
            Find(block + LFLF + rest, LFLF) == Some(|block|)
            && NextFrame(block + LFLF + rest) == Some((block, rest))
  {
    var block := a + [LF] + b;
    var s := block + LFLF + rest;
    assert s[|block|..|block| + 2] == LFLF;
    forall j | 0 <= j < |block| ensures !OccursAt(s, LFLF, j) {
      if j + 2 <= |s| {
        assert s[j..j + 2] == [s[j], s[j + 1]];
      }
    }
    FindIs(s, LFLF, |block|);
    assert s[..|block|] == block && s[|block| + 2..] == rest;
  }

  /** No line feed with a carriage return right after it. */
  ghost predicate NoLfCr(s: seq<byte>) {
    forall i :: 0 <= i < |s| - 1 && s[i] == LF ==> s[i + 1] != CR
  }

  lemma NoLfCrNotMixed(s: seq<byte>)
    requires NoLfCr(s)
    ensures !Mixed(s)
  {
    forall p: nat ensures !OccursAt(s, CRLFCRLF, p) {
      if p + 4 <= |s| {
        assert s[p..p + 4] == [s[p], s[p + 1], s[p + 2], s[p + 3]];
      }
    }
  }

  function BlockFrames(events: seq<Event>): seq<seq<byte>> {
    if events == [] then [] else [Encode(Block(events[0]))] + BlockFrames(events[1..])
  }

  lemma EncodePrinted(events: seq<Event>)
    requires events != []
    ensures Encode(Printed(events)) == Encode(Block(events[0])) + LFLF + Encode(Printed(events[1..]))
  {
    var block, later := Block(events[0]), Printed(events[1..]);
    assert Printed(events) == block + "\n\n" + later;
    hide Encode, Block, Printed;
    EncodeConcat(block + "\n\n", later);
    EncodeConcat(block, "\n\n");
    EncodeBlankLine();
  }

  lemma EncodeBlankLine()
    ensures Encode("\n\n") == LFLF
  {
    assert "\n\n" == "\n" + "\n";
    EncodeConcat("\n", "\n");
    EncodeOne('\n');
  }

  lemma PrintedStart(events: seq<Event>)
    ensures Encode(Printed(events)) != [] ==> Encode(Printed(events))[0] == 'e' as int
  {
    if events != [] {
      assert Printed(events)[0] == 'e';
    }
  }

  lemma {:induction false} PrintedDrains(events: seq<Event>)
    requires forall e <- events :: Printable(e)
    ensures Drain(Encode(Printed(events))) == Drained(BlockFrames(events), [])
    ensures NoLfCr(Encode(Printed(events)))
  {
    if events == [] {
      EmptyDrains();
    } else {
      var e, later := events[0], events[1..];
      assert Printable(e);
      PrintedDrains(later);
      EncodePrinted(events);
      EncodeBlock(e);
      LineFeedFree("event: " + e.name);
      LineFeedFree("data: " + e.payload);
      PrintedStart(later);
      hide Drain, NextFrame, Encode, Printed, Block, Find;
      var a, b, rest := Encode("event: " + e.name), Encode("data: " + e.payload), Encode(Printed(later));
      FirstBlankLine(a, b, rest);
      DrainStep(Encode(Printed(events)), Encode(Block(e)), rest);
      NoLfCrJoined(a, b, rest);
    }
  }

  lemma NoLfCrJoined(a: seq<byte>, b: seq<byte>, rest: seq<byte>)
    requires b != [] && b[0] != CR && NoLfCr(rest) && (rest != [] ==> rest[0] != CR)
    requires (forall i :: 0 <= i < |a| ==> a[i] != LF) && (forall i :: 0 <= i < |b| ==> b[i] != LF)
    ensures NoLfCr(a + [LF] + b + LFLF + rest)
  {
  }

  lemma EmptyDrains()
    ensures Drain([]) == Drained([], []) && NextFrame([]).None?
  {
  }

  // ----- Printing, chunking, parsing

  /** The payloads the JSON decoder should see. */
  function DeliveredAll(events: seq<Event>): seq<string> {
    if events == [] then []
    else
      var later := DeliveredAll(events[1..]);
      if Delivered(events[0]).None? then later else [Delivered(events[0]).value] + later
  }

  /** The events of the payloads before the first that does not decode, and the error of that one. */
  function DecodeAll<E, X>(d: Decoder<E, X>, payloads: seq<string>): (seq<E>, Option<X>) {
    if payloads == [] then ([], None)
    else
      match d.json(payloads[0])
      case Err(error) => ([], Some(error))
      case Ok(event) =>
        var (later, error) := DecodeAll(d, payloads[1..]);
        ([event] + later, error)
  }

  lemma {:induction false} BlocksDecode<E, X>(d: Decoder<E, X>, events: seq<Event>)
    requires forall s: string :: d.lossy(Encode(s)) == s
    requires forall e <- events :: Printable(e)
    ensures var (decoded, error) := DecodeAll(d, DeliveredAll(events));
            && Decodable(d, BlockFrames(events)) == decoded
            && Outcome(d, BlockFrames(events)) == if error.Some? then Err(error.value) else Ok(decoded)
  {
    hide Outcome, Decodable, DecodeAll, ParsedFrame, Encode, Block, Delivered;
    if events == [] {
      NoFrame(d);
      NoPayload(d);
    } else {
      var e, later := events[0], events[1..];
      assert Printable(e);
      BlocksDecode(d, later);
      BlockDecodes(d, e);
      OneMoreFrame(d, Encode(Block(e)), BlockFrames(later));
      if Delivered(e).Some? {
        OneMorePayload(d, Delivered(e).value, DeliveredAll(later));
      }
    }
  }

  lemma NoPayload<E, X>(d: Decoder<E, X>)
    ensures DecodeAll(d, []) == ([], None)
  {
  }

  lemma OneMorePayload<E, X>(d: Decoder<E, X>, payload: string, later: seq<string>)
    ensures DecodeAll(d, [payload] + later) ==
              match d.json(payload)
              case Err(error) => ([], Some(error))
              case Ok(event) => ([event] + DecodeAll(d, later).0, DecodeAll(d, later).1)
  {
    assert ([payload] + later)[1..] == later;
  }

  lemma BlockDecodes<E, X>(d: Decoder<E, X>, e: Event)
    requires Printable(e) && forall s: string :: d.lossy(Encode(s)) == s
    ensures ParsedFrame(d, Encode(Block(e))) == Decoded(d, Delivered(e))
  {
    BlockPayload(e);
    hide Encode, Block, Delivered, Payload;
    assert d.lossy(Encode(Block(e))) == Block(e);
  }

  /** Whatever the chunks, the decoder is given exactly the printed payloads in order, pings and end marks
      apart. When all decode, the caller is handed all their events and nothing is left in the buffer; when
      one does not, the pushes end with its error, and what was handed over before is the start of the
      events before it. */
  lemma PrintedStreamDelivers<E, X>(d: Decoder<E, X>, events: seq<Event>, chunks: seq<seq<byte>>)
    requires forall s: string :: d.lossy(Encode(s)) == s
    requires forall e <- events :: Printable(e)
    requires Flatten(chunks) == Encode(Printed(events))
    ensures var (decoded, error) := DecodeAll(d, DeliveredAll(events));
            var pushed := PushAll(d, [], chunks);
            && pushed.error == error && pushed.events <= decoded
            && (error.None? ==> pushed == Pushes(decoded, None, []))
  {
    hide Drain, NextFrame, Encode, Printed, Mixed, PushAll, Outcome, NoLfCr, Decodable, DecodeAll;
    EmptyDrains();
    PrintedDrains(events);
    NoLfCrNotMixed(Encode(Printed(events)));
    assert [] + Flatten(chunks) == Flatten(chunks);
    EventsAnyChunking(d, [], chunks);
    BlocksDecode(d, events);
  }

  /** A printed stream from which the caller is handed one event when it comes in two chunks and none when
      it comes in one: a payload that decodes, then one that does not. */
  lemma OneChunkLosesAnEvent<E, X>(d: Decoder<E, X>, good: string, bad: string)
    returns (whole: seq<seq<byte>>, split: seq<seq<byte>>)
    requires forall s: string :: d.lossy(Encode(s)) == s
    requires Printable(Event("message", good)) && Printable(Event("message", bad)) && "[DONE]" !in {good, bad}
    requires d.json(good).Ok? && d.json(bad).Err?
    ensures var stream := Encode(Printed([Event("message", good), Event("message", bad)]));
            && Flatten(whole) == stream && Flatten(split) == stream
            && PushAll(d, [], whole).events == []
            && PushAll(d, [], split).events == [d.json(good).value]
  {
    hide Drain, NextFrame, Encode, Printed, Mixed, PushAll, Outcome, NoLfCr, Decodable, Printable, DecodeAll;
    var events := [Event("message", good), Event("message", bad)];
    PrintedDrains(events);
    NoLfCrNotMixed(Encode(Printed(events)));
    BlocksDecode(d, events);
    GoodThenBad(d, good, bad);
    whole, split := ChunkingsDiffer(d, Encode(Printed(events)));
  }

  lemma GoodThenBad<E, X>(d: Decoder<E, X>, good: string, bad: string)
    requires "[DONE]" !in {good, bad} && d.json(good).Ok? && d.json(bad).Err?
    ensures DecodeAll(d, DeliveredAll([Event("message", good), Event("message", bad)]))
         == ([d.json(good).value], Some(d.json(bad).error))
  {
    var e, f := Event("message", good), Event("message", bad);
    TrimTight("message");
    assert Delivered(e) == Some(good) && Delivered(f) == Some(bad);
    hide Delivered, DecodeAll;
    assert [e, f][0] == e && [e, f][1..] == [f] && [f][0] == f && [f][1..] == [];
    assert DeliveredAll([f]) == [bad] + DeliveredAll([]) && DeliveredAll([]) == [];
    assert DeliveredAll([e, f]) == [good] + DeliveredAll([e, f][1..]);
    NoPayload(d);
    OneMorePayload(d, bad, []);
    OneMorePayload(d, good, [bad]);
    assert [bad] + [] == [bad] && [d.json(good).value] + [] == [d.json(good).value];
  }
}
