/** The event parser on top of the framing: frames become payloads, payloads become events, and the
    printer's output comes back as the payloads it was given. */
module SseEvents {
  import opened Options
  import opened Strings
  import opened Search
  import opened Bytes
  import opened SseFraming
  import Rows

  // ----- One frame

  datatype Fields = Fields(name: Option<string>, data: seq<string>)

  function AddLine(f: Fields, line: string): Fields {
    if StartsWith(line, ":") then f
    else if StartsWith(line, "event:") then f.(name := Some(Trim(line[6..])))
    else if StartsWith(line, "data:") then f.(data := f.data + [TrimStart(line[5..])])
    else f
  }

  function FieldsOf(lines: seq<string>): Fields {
    if lines == [] then Fields(None, [])
    else AddLine(FieldsOf(lines[..|lines| - 1]), lines[|lines| - 1])
  }

  /** What a frame hands to the JSON decoder, if anything. */
  function Payload(frame: string): Option<string> {
    if Trim(frame) == "" then None
    else
      var f := FieldsOf(Lines(Trim(frame)));
      if f.name == Some("ping") || f.data == [] then None
      else
        var payload := Rows.Join(f.data);
        if payload == "[DONE]" then None else Some(payload)
  }

  /** The parts of the parser that come from elsewhere: lossy UTF-8 decoding and JSON. */
  datatype Decoder<E, X> = Decoder(lossy: seq<byte> -> string, json: string -> Result<E, X>)

  function ParsedFrame<E, X>(d: Decoder<E, X>, frame: seq<byte>): Result<Option<E>, X> {
    Decoded(d, Payload(d.lossy(frame)))
  }

  function Decoded<E, X>(d: Decoder<E, X>, payload: Option<string>): Result<Option<E>, X> {
    if payload.None? then Ok(None)
    else
      match d.json(payload.value)
      case Ok(event) => Ok(Some(event))
      case Err(error) => Err(error)
  }

  // ----- A buffer

  /** Decodes frames until one fails; the failing frame is gone from the buffer, and so are the events
      decoded before it. */
  function Consume<E, X>(d: Decoder<E, X>, buffer: seq<byte>): (Result<seq<E>, X>, seq<byte>)
    decreases |buffer|
  {
    match NextFrame(buffer)
    case None => (Ok([]), buffer)
    case Some((frame, rest)) =>
      match ParsedFrame(d, frame)
      case Err(error) => (Err(error), rest)
      case Ok(event) => (var (r, left) := Consume(d, rest); (Preceded(event, r), left))
  }

  function Preceded<E, X>(event: Option<E>, later: Result<seq<E>, X>): Result<seq<E>, X> {
    if later.Err? || event.None? then later else Ok([event.value] + later.value)
  }

  function Alone<E, X>(parsed: Result<Option<E>, X>): Result<seq<E>, X> {
    match parsed
    case Err(error) => Err(error)
    case Ok(event) => Ok(if event.Some? then [event.value] else [])
  }

  function Prefixed<E, X>(events: seq<E>, later: Result<seq<E>, X>): Result<seq<E>, X> {
    if later.Err? then later else Ok(events + later.value)
  }

  lemma ConsumeStep<E, X>(d: Decoder<E, X>, buffer: seq<byte>)
    ensures var next := NextFrame(buffer);
            if next.None? then Consume(d, buffer) == (Ok([]), buffer)
            else
              var parsed := ParsedFrame(d, next.value.0);
              var later := Consume(d, next.value.1);
              Consume(d, buffer) == if parsed.Err? then (Err(parsed.error), next.value.1)
                                    else (Preceded(parsed.value, later.0), later.1)
  {
  }

  lemma PrefixedNone<E, X>(later: Result<seq<E>, X>)
    ensures Prefixed([], later) == later
  {
    if later.Ok? { assert [] + later.value == later.value; }
  }

  lemma PrefixedEnds<E(!new), X(!new)>()
    ensures forall events: seq<E> :: Prefixed<E, X>(events, Ok([])) == Ok(events)
    ensures forall events: seq<E>, error: X :: Prefixed<E, X>(events, Err(error)) == Err(error)
  {
    assert forall events: seq<E> :: events + [] == events;
  }

  lemma PrefixedOne<E, X>(events: seq<E>, event: Option<E>, later: Result<seq<E>, X>)
    ensures Prefixed(events, Preceded(event, later)) ==
              Prefixed(if event.Some? then events + [event.value] else events, later)
  {
    if later.Ok? && event.Some? {
      assert events + ([event.value] + later.value) == events + [event.value] + later.value;
    }
  }

  class Parser<E(!new), X(!new)> {
    var buffer: seq<byte>
    const decoder: Decoder<E, X>

    constructor (decoder: Decoder<E, X>)
      ensures buffer == [] && this.decoder == decoder
    {
      this.decoder := decoder;
      buffer := [];
    }

    method TakeFrame() returns (frame: Option<seq<byte>>)
      modifies this`buffer
      ensures var next := NextFrame(old(buffer));
              if next.None? then frame == None && buffer == old(buffer)
              else frame == Some(next.value.0) && buffer == next.value.1 && |buffer| < |old(buffer)|
    {
      var position, separatorLen;
      match Find(buffer, LFLF) {
        case Some(p) => position, separatorLen := p, 2;
        case None =>
          match Find(buffer, CRLFCRLF) {
            case Some(p) => position, separatorLen := p, 4;
            case None => return None;
          }
      }
      var taken := buffer[..position + separatorLen];
      buffer := buffer[position + separatorLen..];
      assert taken[..|taken| - separatorLen] == old(buffer)[..position];
      return Some(taken[..|taken| - separatorLen]);
    }

    method ParseFrame(frame: string) returns (r: Result<Option<E>, X>)
      ensures r == Decoded(decoder, Payload(frame))
    {
      hide Trim, TrimEnd, TrimStart, Lines, Rows.Join;
      var trimmed := Trim(frame);
      if trimmed == "" {
        return Ok(None);
      }
      var dataLines: seq<string> := [];
      var eventName: Option<string> := None;
      var lines := Lines(trimmed);
      for i := 0 to |lines|
        invariant Fields(eventName, dataLines) == FieldsOf(lines[..i])
      {
        assert lines[..i + 1][..i] == lines[..i];
        var line := lines[i];
        if StartsWith(line, ":") {
          continue;
        }
        if StripPrefix(line, "event:").Some? {
          eventName := Some(Trim(StripPrefix(line, "event:").value));
          continue;
        }
        if StripPrefix(line, "data:").Some? {
          dataLines := dataLines + [TrimStart(StripPrefix(line, "data:").value)];
        }
      }
      assert lines[..|lines|] == lines;
      if eventName == Some("ping") {
        return Ok(None);
      }
      if dataLines == [] {
        return Ok(None);
      }
      var payload := Rows.Join(dataLines);
      if payload == "[DONE]" {
        return Ok(None);
      }
      match decoder.json(payload) {
        case Ok(event) => return Ok(Some(event));
        case Err(error) => return Err(error);
      }
    }

    method Push(chunk: seq<byte>) returns (r: Result<seq<E>, X>)
      modifies this`buffer
      ensures (r, buffer) == Consume(decoder, old(buffer) + chunk)
    {
      buffer := buffer + chunk;
      ghost var all := buffer;
      var events: seq<E> := [];
      PrefixedNone(Consume(decoder, all).0);
      PrefixedEnds<E, X>();
      hide Consume, NextFrame, Payload, Decoded, Prefixed, Preceded;
      while true
        invariant Consume(decoder, all) == (Prefixed(events, Consume(decoder, buffer).0), Consume(decoder, buffer).1)
        decreases |buffer|
      {
        ConsumeStep(decoder, buffer);
        var frame := TakeFrame();
        if frame.None? {
          return Ok(events);
        }
        var parsed := ParseFrame(decoder.lossy(frame.value));
        match parsed {
          case Err(error) => return Err(error);
          case Ok(event) =>
            PrefixedOne(events, event, Consume(decoder, buffer).0);
            if event.Some? {
              events := events + [event.value];
            }
        }
      }
    }

    method Finish() returns (r: Result<seq<E>, X>)
      modifies this`buffer
      ensures buffer == []
      ensures r == if old(buffer) == [] then Ok([]) else Alone(ParsedFrame(decoder, old(buffer)))
    {
      if buffer == [] {
        return Ok([]);
      }
      var trailing := buffer;
      buffer := [];
      var parsed := ParseFrame(decoder.lossy(trailing));
      match parsed {
        case Err(error) => return Err(error);
        case Ok(event) => return Ok(if event.Some? then [event.value] else []);
      }
    }
  }

  // ----- Chunking does not matter

  /** The events of a list of frames, or the error of the first frame that fails. */
  function Outcome<E, X>(d: Decoder<E, X>, frames: seq<seq<byte>>): Result<seq<E>, X> {
    if frames == [] then Ok([])
    else
      var parsed := ParsedFrame(d, frames[0]);
      if parsed.Err? then Err(parsed.error) else Preceded(parsed.value, Outcome(d, frames[1..]))
  }

  function Then<E, X>(first: Result<seq<E>, X>, second: Result<seq<E>, X>): Result<seq<E>, X> {
    if first.Err? then first else Prefixed(first.value, second)
  }

  lemma {:induction false} OutcomeConcat<E, X>(d: Decoder<E, X>, a: seq<seq<byte>>, b: seq<seq<byte>>)
    ensures Outcome(d, a + b) == Then(Outcome(d, a), Outcome(d, b))
    decreases |a|
  {
    if a == [] {
      assert a + b == b;
      PrefixedNone(Outcome(d, b));
    } else {
      hide ParsedFrame;
      assert (a + b)[1..] == a[1..] + b;
      OutcomeConcat(d, a[1..], b);
      ThenPreceded(ParsedFrame(d, a[0]), Outcome(d, a[1..]), Outcome(d, b));
    }
  }

  lemma ThenPreceded<E, X>(parsed: Result<Option<E>, X>, x: Result<seq<E>, X>, y: Result<seq<E>, X>)
    ensures parsed.Ok? ==> Preceded(parsed.value, Then(x, y)) == Then(Preceded(parsed.value, x), y)
  {
    if parsed.Ok? && parsed.value.Some? && x.Ok? && y.Ok? {
      assert [parsed.value.value] + (x.value + y.value) == [parsed.value.value] + x.value + y.value;
    }
  }

  /** A push answers for exactly the complete frames of its buffer and, when all decode, keeps exactly
      the residue. */
  lemma {:induction false} ConsumeIsOutcome<E, X>(d: Decoder<E, X>, buffer: seq<byte>)
    ensures Consume(d, buffer).0 == Outcome(d, Drain(buffer).frames)
    ensures Consume(d, buffer).0.Ok? ==> Consume(d, buffer).1 == Drain(buffer).rest
    decreases |buffer|
  {
    hide NextFrame, ParsedFrame, Drain, Consume;
    ConsumeStep(d, buffer);
    if NextFrame(buffer).None? {
      DrainNone(buffer);
    } else {
      var (frame, rest) := NextFrame(buffer).value;
      assert |rest| < |buffer| by { NextFrameShrinks(buffer); }
      DrainStep(buffer, frame, rest);
      ConsumeIsOutcome(d, rest);
      assert ([frame] + Drain(rest).frames)[1..] == Drain(rest).frames;
    }
  }

  lemma NextFrameShrinks(buffer: seq<byte>)
    requires NextFrame(buffer).Some?
    ensures |NextFrame(buffer).value.1| < |buffer|
  {
  }

  /** The events of the frames before the first that does not decode. */
  function Decodable<E, X>(d: Decoder<E, X>, frames: seq<seq<byte>>): seq<E> {
    if frames == [] then []
    else
      var parsed := ParsedFrame(d, frames[0]);
      if parsed.Err? then []
      else (if parsed.value.Some? then [parsed.value.value] else []) + Decodable(d, frames[1..])
  }

  lemma {:induction false} DecodableOutcome<E, X>(d: Decoder<E, X>, frames: seq<seq<byte>>)
    ensures Outcome(d, frames).Ok? ==> Outcome(d, frames).value == Decodable(d, frames)
  {
    hide ParsedFrame;
    if frames != [] {
      DecodableOutcome(d, frames[1..]);
    }
  }

  lemma {:induction false} DecodableConcat<E, X>(d: Decoder<E, X>, a: seq<seq<byte>>, b: seq<seq<byte>>)
    ensures Decodable(d, a + b) ==
              if Outcome(d, a).Ok? then Decodable(d, a) + Decodable(d, b) else Decodable(d, a)
    decreases |a|
  {
    hide Decodable, Outcome, ParsedFrame;
    if a == [] {
      assert a + b == b;
      NothingDecodable(d);
    } else {
      assert (a + b)[1..] == a[1..] + b;
      DecodableConcat(d, a[1..], b);
      DecodableFirst(d, a);
      DecodableFirst(d, a + b);
      var parsed := ParsedFrame(d, a[0]);
      if parsed.Ok? && parsed.value.Some? {
        Associate([parsed.value.value], Decodable(d, a[1..]), Decodable(d, b));
      }
    }
  }

  lemma NothingDecodable<E, X>(d: Decoder<E, X>)
    ensures Decodable(d, []) == [] && Outcome(d, []).Ok?
  {
  }

  lemma Associate<T>(x: seq<T>, y: seq<T>, z: seq<T>)
    ensures x + (y + z) == x + y + z
  {
  }

  lemma DecodableFirst<E, X>(d: Decoder<E, X>, frames: seq<seq<byte>>)
    requires frames != []
    ensures var parsed, rest := ParsedFrame(d, frames[0]), Decodable(d, frames[1..]);
            Decodable(d, frames) ==
              if parsed.Err? then [] else if parsed.value.Some? then [parsed.value.value] + rest else rest
    ensures Outcome(d, frames).Ok? <==> ParsedFrame(d, frames[0]).Ok? && Outcome(d, frames[1..]).Ok?
  {
    hide ParsedFrame;
    var rest := Decodable(d, frames[1..]);
    assert [] + rest == rest;
  }

  /** A failing push has dropped the frames up to and including the first bad one, and nothing else; the
      events of the frames before it are lost. */
  lemma {:induction false} FailureDropsThroughFirstBad<E, X>(d: Decoder<E, X>, buffer: seq<byte>) returns (k: nat)
    requires Consume(d, buffer).0.Err?
    ensures var frames := Drain(buffer).frames;
            && k < |frames|
            && (forall i :: 0 <= i < k ==> ParsedFrame(d, frames[i]).Ok?)
            && ParsedFrame(d, frames[k]) == Err(Consume(d, buffer).0.error)
            && Drain(Consume(d, buffer).1) == Drained(frames[k + 1..], Drain(buffer).rest)
            && Outcome(d, frames[..k]) == Ok(Decodable(d, frames))
    decreases |buffer|
  {
    hide NextFrame, ParsedFrame, Drain, Consume, Outcome, Decodable;
    ConsumeStep(d, buffer);
    var (frame, rest) := NextFrame(buffer).value;
    NextFrameShrinks(buffer);
    DrainStep(buffer, frame, rest);
    var later := Drain(rest).frames;
    var frames := [frame] + later;
    OneMoreFrame(d, frame, later);
    if ParsedFrame(d, frame).Err? {
      k := 0;
      assert frames[..0] == [] && frames[1..] == later;
      NoFrame(d);
    } else {
      var j := FailureDropsThroughFirstBad(d, rest);
      k := j + 1;
      assert forall i | 0 < i <= k :: frames[i] == later[i - 1];
      assert frames[k + 1..] == later[j + 1..] && frames[..k] == [frame] + later[..j];
      OneMoreFrame(d, frame, later[..j]);
    }
  }

  lemma NoFrame<E, X>(d: Decoder<E, X>)
    ensures Outcome(d, []) == Ok([]) && Decodable(d, []) == []
  {
  }

  lemma OneMoreFrame<E, X>(d: Decoder<E, X>, frame: seq<byte>, later: seq<seq<byte>>)
    ensures var parsed := ParsedFrame(d, frame);
            && Outcome(d, [frame] + later) ==
                 (if parsed.Err? then Err(parsed.error) else Preceded(parsed.value, Outcome(d, later)))
            && Decodable(d, [frame] + later) ==
                 if parsed.Err? then []
                 else if parsed.value.None? then Decodable(d, later)
                 else [parsed.value.value] + Decodable(d, later)
  {
    hide ParsedFrame;
    assert ([frame] + later)[1..] == later;
    assert [] + Decodable(d, later) == Decodable(d, later);
  }

  // ----- What a caller that pushes chunk after chunk is handed

  /** The events returned by the pushes before the first that fails, its error, and the buffer left. */
  datatype Pushes<E, X> = Pushes(events: seq<E>, error: Option<X>, rest: seq<byte>)

  function PushAll<E, X>(d: Decoder<E, X>, buffer: seq<byte>, chunks: seq<seq<byte>>): Pushes<E, X>
    decreases |chunks|
  {
    if chunks == [] then Pushes([], None, buffer)
    else
      var (now, left) := Consume(d, buffer + chunks[0]);
      if now.Err? then Pushes([], Some(now.error), left)
      else
        var later := PushAll(d, left, chunks[1..]);
        Pushes(now.value + later.events, later.error, later.rest)
  }

  /** Whether all decodes and with which error it ends does not depend on the chunks, and the events
      handed over are at most those before the first bad frame, in order; all of them when none is bad. */
  lemma {:induction false} EventsAnyChunking<E, X>(d: Decoder<E, X>, buffer: seq<byte>, chunks: seq<seq<byte>>)
    requires NextFrame(buffer).None? && !Mixed(buffer + Flatten(chunks))
    ensures var whole, pushed := Drain(buffer + Flatten(chunks)), PushAll(d, buffer, chunks);
            && pushed.events <= Decodable(d, whole.frames)
            && if Outcome(d, whole.frames).Ok?
               then pushed == Pushes(Outcome(d, whole.frames).value, None, whole.rest)
               else pushed.error == Some(Outcome(d, whole.frames).error)
    decreases |chunks|
  {
    if chunks == [] {
      assert buffer + [] == buffer;
      DrainNone(buffer);
    } else {
      hide NextFrame, Mixed, Drain, Consume, Outcome, Decodable;
      var now, later := buffer + chunks[0], Flatten(chunks[1..]);
      assert buffer + Flatten(chunks) == now + later;
      ResidueCarriesOn(now, later);
      ConsumeIsOutcome(d, now);
      OutcomeConcat(d, Drain(now).frames, Drain(Drain(now).rest + later).frames);
      DecodableConcat(d, Drain(now).frames, Drain(Drain(now).rest + later).frames);
      if Consume(d, now).0.Ok? {
        DecodableOutcome(d, Drain(now).frames);
        EventsAnyChunking(d, Drain(now).rest, chunks[1..]);
      }
    }
  }

  /** Nothing that decodes stands before the first bad frame. */
  predicate SilentBeforeBad<E, X>(d: Decoder<E, X>, frames: seq<seq<byte>>) {
    forall k | 0 <= k < |frames| && FirstBad(d, frames, k) ::
      forall i | 0 <= i < k :: ParsedFrame(d, frames[i]) == Ok(None)
  }

  predicate FirstBad<E, X>(d: Decoder<E, X>, frames: seq<seq<byte>>, k: nat)
    requires k < |frames|
  {
    ParsedFrame(d, frames[k]).Err? && forall i | 0 <= i < k :: ParsedFrame(d, frames[i]).Ok?
  }

  /** Exactly when decoding a list of frames fails there is a first bad one. */
  lemma {:induction false} FirstBadFound<E, X>(d: Decoder<E, X>, frames: seq<seq<byte>>) returns (k: nat)
    requires Outcome(d, frames).Err?
    ensures k < |frames| && FirstBad(d, frames, k) && Outcome(d, frames[..k]).Ok?
    decreases |frames|
  {
    hide ParsedFrame;
    if ParsedFrame(d, frames[0]).Err? {
      k := 0;
      assert frames[..0] == [];
    } else {
      var j := FirstBadFound(d, frames[1..]);
      k := j + 1;
      assert forall i | 0 < i < k :: frames[i] == frames[1..][i - 1];
      assert frames[..k] == [frames[0]] + frames[1..][..j];
      OneMoreFrame(d, frames[0], frames[1..][..j]);
    }
  }

  lemma {:induction false} BadIsNoOutcome<E, X>(d: Decoder<E, X>, frames: seq<seq<byte>>, k: nat)
    requires k < |frames| && FirstBad(d, frames, k)
    ensures Outcome(d, frames).Err?
    ensures Decodable(d, frames) == [] <==> forall i | 0 <= i < k :: ParsedFrame(d, frames[i]) == Ok(None)
    decreases k
  {
    hide ParsedFrame;
    if k > 0 {
      var rest := frames[1..];
      assert forall i | 0 < i <= k :: frames[i] == rest[i - 1];
      BadIsNoOutcome(d, rest, k - 1);
      if forall i | 0 <= i < k - 1 :: ParsedFrame(d, rest[i]) == Ok(None) {
        assert forall i | 0 < i < k :: ParsedFrame(d, frames[i]) == ParsedFrame(d, rest[i - 1]);
      }
    }
  }

  lemma SilentMeansNone<E, X>(d: Decoder<E, X>, frames: seq<seq<byte>>)
    ensures SilentBeforeBad(d, frames) <==> Outcome(d, frames).Ok? || Decodable(d, frames) == []
  {
    hide ParsedFrame, Outcome, Decodable;
    forall k | 0 <= k < |frames| && FirstBad(d, frames, k)
      ensures Outcome(d, frames).Err?
      ensures Decodable(d, frames) == [] <==> forall i | 0 <= i < k :: ParsedFrame(d, frames[i]) == Ok(None)
    {
      BadIsNoOutcome(d, frames, k);
    }
    if Outcome(d, frames).Err? {
      var k := FirstBadFound(d, frames);
    }
  }

  ghost predicate SameForAllChunks<E, X>(d: Decoder<E, X>, stream: seq<byte>) {
    forall a: seq<seq<byte>>, b: seq<seq<byte>> | Flatten(a) == stream && Flatten(b) == stream ::
      PushAll(d, [], a).events == PushAll(d, [], b).events
  }

  /** The events a caller is handed are the same for every chunking of a stream exactly when every frame
      decodes or nothing that decodes stands before the first bad frame: otherwise a stream that comes in
      one chunk hands over nothing, and one cut before the bad frame hands over all that comes before. */
  lemma HandedOverExactly<E, X>(d: Decoder<E, X>, stream: seq<byte>)
    requires !Mixed(stream)
    ensures SameForAllChunks(d, stream) <==> SilentBeforeBad(d, Drain(stream).frames)
  {
    hide Mixed, Drain, SilentBeforeBad, Outcome, Decodable, PushAll, NextFrame;
    var frames := Drain(stream).frames;
    SilentMeansNone(d, frames);
    EmptyBuffer();
    if SilentBeforeBad(d, frames) {
      forall a: seq<seq<byte>> | Flatten(a) == stream
        ensures PushAll(d, [], a).events ==
                  if Outcome(d, frames).Ok? then Outcome(d, frames).value else []
      {
        assert [] + Flatten(a) == stream;
        EventsAnyChunking(d, [], a);
      }
    } else {
      var whole, split := ChunkingsDiffer(d, stream);
    }
  }

  lemma EmptyBuffer()
    ensures NextFrame([]).None?
  {
  }

  /** Two chunkings of a stream with a bad frame: all at once, and cut right before that frame. */
  lemma ChunkingsDiffer<E, X>(d: Decoder<E, X>, stream: seq<byte>)
    returns (whole: seq<seq<byte>>, split: seq<seq<byte>>)
    requires !Mixed(stream) && Outcome(d, Drain(stream).frames).Err?
    ensures Flatten(whole) == stream && Flatten(split) == stream
    ensures PushAll(d, [], whole).events == []
    ensures PushAll(d, [], split).events == Decodable(d, Drain(stream).frames)
  {
    hide Mixed, Drain, Outcome, Decodable, NextFrame, Consume;
    var frames := Drain(stream).frames;
    var k := FirstBadFound(d, frames);
    var i := CutAfterFrames(stream, k);
    var a, b := stream[..i], stream[i..];
    whole, split := [stream], [a, b];
    TwoChunks(stream, []);
    TwoChunks(a, b);
    assert stream + [] == stream && a + b == stream;
    ConsumeIsOutcome(d, stream);
    assert [] + stream == stream && [] + a == a && [] + b == b;
    ConsumeIsOutcome(d, a);
    DecodableOutcome(d, frames[..k]);
    ResidueCarriesOn(a, b);
    ConsumeIsOutcome(d, b);
    assert frames == frames[..k] + Drain(b).frames;
    OutcomeConcat(d, frames[..k], Drain(b).frames);
    BeforeBad(d, frames, k);
    PushedWhole(d, stream);
    PushedSplit(d, a, b);
  }

  lemma BeforeBad<E, X>(d: Decoder<E, X>, frames: seq<seq<byte>>, k: nat)
    requires k < |frames| && FirstBad(d, frames, k) && Outcome(d, frames[..k]).Ok?
    ensures Decodable(d, frames) == Decodable(d, frames[..k])
  {
    hide Outcome, ParsedFrame;
    assert frames == frames[..k] + frames[k..];
    DecodableConcat(d, frames[..k], frames[k..]);
  }

  lemma TwoChunks(a: seq<byte>, b: seq<byte>)
    ensures Flatten([a]) == a && Flatten([a, b]) == a + b
  {
    assert [a][1..] == [] && [a, b][1..] == [b] && [b][1..] == [];
  }

  lemma PushedWhole<E, X>(d: Decoder<E, X>, stream: seq<byte>)
    requires Consume(d, stream).0.Err?
    ensures PushAll(d, [], [stream]).events == []
  {
    hide Consume;
    assert [] + stream == stream;
  }

  lemma PushedSplit<E, X>(d: Decoder<E, X>, a: seq<byte>, b: seq<byte>)
    requires Consume(d, a).0.Ok? && Consume(d, a).1 == [] && Consume(d, b).0.Err?
    ensures PushAll(d, [], [a, b]).events == Consume(d, a).0.value
  {
    hide Consume;
    assert [] + a == a && [] + b == b && [a, b][1..] == [b];
    PushedWhole(d, b);
  }
}
