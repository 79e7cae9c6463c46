/** The control/data multiplexer: messages in frames, and a decoder that gives up on bad input. */
module Mux {
  import opened Base
  import opened Frames

  const CONTROL: Byte := 1
  const DATA: Byte := 2
  const MAX_PAYLOAD := 0x80_0000

  /** A control message of the program's own type, or bytes for one session (its id in UTF-8). */
  datatype Message<M> = Control(message: M) | Data(sessionId: Bytes, data: Bytes)

  /** JSON in UTF-8. Reading gives none where JSON.parse throws. */
  datatype Codec<!M> = Codec(write: M -> Bytes, read: Bytes -> Option<M>)

  // ---------------------------------------------------------------- one frame

  datatype EncodeError = SessionIdTooLong | FrameTooLong

  function Min(a: nat, b: nat): nat { if a < b then a else b }

  function PayloadSize<M>(c: Codec<M>, m: Message<M>): nat {
    match m
    case Control(message) => |c.write(message)|
    case Data(id, data) => 1 + |id| + |data|
  }

  function Payload<M>(c: Codec<M>, m: Message<M>): (p: Bytes)
    requires m.Data? ==> |m.sessionId| < 0x100
    ensures |p| == PayloadSize(c, m)
  {
    match m
    case Control(message) => c.write(message)
    case Data(id, data) => [|id|] + id + data
  }

  function ToFrame<M>(c: Codec<M>, m: Message<M>): Frame
    requires m.Data? ==> |m.sessionId| < 0x100
  {
    Frame(if m.Control? then CONTROL else DATA, Payload(c, m))
  }

  /** The payload's first byte counts the bytes of the session id; a count past the end is cut off. */
  function FromData<M>(payload: Bytes): Message<M>
    requires payload != []
  {
    var cut := Min(1 + payload[0] as int, |payload|);
    Data(payload[1..cut], payload[cut..])
  }

  /** What a complete frame of admissible size gives: nothing for an unknown tag, an error where decoding
      throws. */
  function Interpret<M>(c: Codec<M>, f: Frame): Result<seq<Message<M>>, DecodeError> {
    if f.tag == CONTROL then
      match c.read(f.payload)
      case None => Err(BadControl)
      case Some(m) => Ok([Control(m)])
    else if f.tag == DATA then
      if f.payload == [] then Err(EmptyData) else Ok([FromData(f.payload)])
    else Ok([])
  }

  datatype DecodeError = TooLarge | BadControl | EmptyData

  /** A control message travels under tag 1 as its JSON, data under tag 2 behind the length of its session id and
      the id. */
  lemma MessageFormat<M>(c: Codec<M>, m: Message<M>)
    requires m.Data? ==> |m.sessionId| < 0x100
    requires PayloadSize(c, m) < UINT32_LIMIT
    ensures
      var s := Encode(ToFrame(c, m));
      && s[4] == (if m.Control? then 1 else 2)
      && s[5..] == (if m.Control? then c.write(m.message) else [|m.sessionId|] + m.sessionId + m.data)
  {
    WireFormat(ToFrame(c, m));
  }

  lemma InterpretEncoded<M>(c: Codec<M>, m: Message<M>)
    requires m.Data? ==> |m.sessionId| < 0x100
    requires m.Control? ==> c.read(c.write(m.message)) == Some(m.message)
    ensures Interpret(c, ToFrame(c, m)) == Ok([m])
  {
    if m.Data? {
      var payload := [|m.sessionId|] + m.sessionId + m.data;
      assert payload[1..1 + |m.sessionId|] == m.sessionId && payload[1 + |m.sessionId|..] == m.data;
    }
  }

  // ---------------------------------------------------------------- a whole stream

  /** What is decoded, what remains in the buffer, and whether decoding stopped at an error. */
  datatype Outcome<M> = Outcome(messages: seq<Message<M>>, rest: Bytes, error: Option<DecodeError>)

  predicate Oversize(s: Bytes) { |s| >= HEADER_SIZE && ReadU32(s) > MAX_PAYLOAD }

  function Decode<M>(c: Codec<M>, s: Bytes): (o: Outcome<M>)
    ensures |o.rest| <= |s|
    decreases |s|
  {
    if Oversize(s) then Outcome([], s, Some(TooLarge))
    else if !Complete(s) then Outcome([], s, None)
    else
      match Interpret(c, First(s))
      case Err(e) => Outcome([], s, Some(e))
      case Ok(messages) =>
        var o := Decode(c, Rest(s));
        Outcome(messages + o.messages, o.rest, o.error)
  }

  /** At the front of the stream stands a header that is too large, or a whole frame that does not decode. */
  predicate Bad<M>(c: Codec<M>, s: Bytes) {
    Oversize(s) || (Complete(s) && Interpret(c, First(s)).Err?)
  }

  /** That is: five bytes whose length is over 8 MiB, a whole control frame that is not JSON, or a whole data frame
      without a payload. */
  predicate BadFrame<M>(c: Codec<M>, s: Bytes) {
    && |s| >= 5
    && (|| ReadU32(s) > 8 * 1024 * 1024
        || (|s| >= 5 + ReadU32(s) && s[4] == 1 && c.read(s[5..5 + ReadU32(s)]) == None)
        || (|s| >= 5 + ReadU32(s) && s[4] == 2 && ReadU32(s) == 0))
  }

  lemma BadIs<M>(c: Codec<M>, s: Bytes)
    ensures Bad(c, s) <==> BadFrame(c, s)
  {
    if Complete(s) { assert First(s) == Frame(s[4], s[5..5 + ReadU32(s)]); }
  }

  predicate Good<M>(c: Codec<M>, f: Frame) { |f.payload| <= MAX_PAYLOAD && Interpret(c, f).Ok? }

  predicate AllGood<M>(c: Codec<M>, frames: seq<Frame>)
    ensures AllGood(c, frames) ==> forall f <- frames :: Encodable(f)
  {
    forall f <- frames :: Good(c, f)
  }

  function MessagesOf<M>(c: Codec<M>, frames: seq<Frame>): seq<Message<M>>
    requires AllGood(c, frames)
  {
    if frames == [] then []
    else
      assert Good(c, frames[0]);
      Interpret(c, frames[0]).value + MessagesOf(c, frames[1..])
  }

  /** The stream is good frames followed by something that is not one. */
  ghost predicate Reaches<M>(c: Codec<M>, s: Bytes, frames: seq<Frame>, rest: Bytes) {
    AllGood(c, frames) && s == EncodeAll(frames) + rest && (Bad(c, rest) || !Complete(rest))
  }

  /** The frames that decoding consumes. */
  function Consumed<M>(c: Codec<M>, s: Bytes): (frames: seq<Frame>)
    ensures AllGood(c, frames)
    decreases |s|
  {
    if Oversize(s) || !Complete(s) || Interpret(c, First(s)).Err? then [] else [First(s)] + Consumed(c, Rest(s))
  }

  lemma {:induction false} DecodeReaches<M>(c: Codec<M>, s: Bytes)
    ensures Reaches(c, s, Consumed(c, s), Decode(c, s).rest)
    ensures Decode(c, s).messages == MessagesOf(c, Consumed(c, s))
    ensures Decode(c, s).error.Some? <==> Bad(c, Decode(c, s).rest)
    decreases |s|
  {
    if Oversize(s) || !Complete(s) || Interpret(c, First(s)).Err? {
      assert EncodeAll(Consumed(c, s)) + s == s;
    } else {
      DecodeReaches(c, Rest(s));
      EncodeFirst(s);
      var frames := Consumed(c, Rest(s));
      EncodeCons(First(s), frames);
      Assoc(Encode(First(s)), EncodeAll(frames), Decode(c, Rest(s)).rest);
      assert ([First(s)] + frames)[1..] == frames;
    }
  }

  /** There is only one way to read a stream as good frames followed by something else. */
  lemma {:induction false} DecodeOfReached<M>(c: Codec<M>, frames: seq<Frame>, rest: Bytes)
    requires AllGood(c, frames) && Reaches(c, EncodeAll(frames) + rest, frames, rest)
    ensures
      var o := Decode(c, EncodeAll(frames) + rest);
      o.messages == MessagesOf(c, frames) && o.rest == rest && (o.error.Some? <==> Bad(c, rest))
  {
    if frames == [] {
      assert EncodeAll(frames) + rest == rest;
    } else {
      assert Good(c, frames[0]);
      var tail := EncodeAll(frames[1..]) + rest;
      Assoc(Encode(frames[0]), EncodeAll(frames[1..]), rest);
      FirstOfEncoded(frames[0], tail);
      ReadWrittenHeader(frames[0], tail);
      DecodeOfReached(c, frames[1..], rest);
    }
  }

  lemma ReadWrittenHeader(f: Frame, rest: Bytes)
    requires Encodable(f)
    ensures ReadU32(Encode(f) + rest) == |f.payload|
  {
    assert Encode(f) + rest == U32(|f.payload|) + ([f.tag] + f.payload + rest);
    ReadWrittenU32(|f.payload|, [f.tag] + f.payload + rest);
  }

  /** Decoding fails exactly on a stream whose good frames lead to an oversize header, an empty data frame, or
      a control frame that is not JSON. */
  lemma FailsExactlyAtBadFrame<M>(c: Codec<M>, s: Bytes)
    ensures Decode(c, s).error.Some? <==> exists frames, rest :: Reaches(c, s, frames, rest) && BadFrame(c, rest)
  {
    DecodeReaches(c, s);
    BadIs(c, Decode(c, s).rest);
    if frames, rest :| Reaches(c, s, frames, rest) && BadFrame(c, rest) {
      BadIs(c, rest);
      DecodeOfReached(c, frames, rest);
    }
  }

  /** Without a failure the buffer keeps less than one frame of the largest size. */
  lemma {:induction false} RetainsLessThanAFrame<M>(c: Codec<M>, s: Bytes)
    requires Decode(c, s).error.None?
    ensures |Decode(c, s).rest| < 5 + 8 * 1024 * 1024
    decreases |s|
  {
    if Complete(s) {
      RetainsLessThanAFrame(c, Rest(s));
    }
  }

  // ---------------------------------------------------------------- the decoder, fed in chunks

  /** One push: the messages, unless decoding fails; the buffer after it. */
  function Pushed<M>(c: Codec<M>, buffer: Bytes, chunk: Bytes): (Result<seq<Message<M>>, DecodeError>, Bytes) {
    var o := Decode(c, buffer + chunk);
    (if o.error.Some? then Err(o.error.value) else Ok(o.messages), o.rest)
  }

  /** Chunks pushed one after another until one fails: all the messages returned, and the state at the end. */
  function PushAll<M>(c: Codec<M>, buffer: Bytes, chunks: seq<Bytes>): Outcome<M>
    decreases |chunks|
  {
    if chunks == [] then Outcome([], buffer, None)
    else
      var (returned, rest) := Pushed(c, buffer, chunks[0]);
      if returned.Err? then Outcome([], rest, Some(returned.error))
      else
        var o := PushAll(c, rest, chunks[1..]);
        Outcome(returned.value + o.messages, o.rest, o.error)
  }

  lemma {:induction false} DecodeAppend<M>(c: Codec<M>, s: Bytes, more: Bytes)
    requires Decode(c, s).error.None?
    ensures
      var o, p := Decode(c, s), Decode(c, Decode(c, s).rest + more);
      Decode(c, s + more) == Outcome(o.messages + p.messages, p.rest, p.error)
    decreases |s|
  {
    if Complete(s) {
      CompleteStays(s, more);
      assert ReadU32(s + more) == ReadU32(s);
      DecodeAppend(c, Rest(s), more);
      var messages := Interpret(c, First(s)).value;
      var o := Decode(c, Rest(s));
      Assoc(messages, o.messages, Decode(c, o.rest + more).messages);
    } else {
      assert Decode(c, s).messages + Decode(c, s + more).messages == Decode(c, s + more).messages;
    }
  }

  /** A failure stays: with more bytes after it the stream fails at the same place, in the same way. */
  lemma {:induction false} FailureStays<M>(c: Codec<M>, s: Bytes, more: Bytes)
    requires Decode(c, s).error.Some?
    ensures
      var o := Decode(c, s);
      Decode(c, s + more) == Outcome(o.messages, o.rest + more, o.error)
    decreases |s|
  {
    if Oversize(s) {
      assert ReadU32(s + more) == ReadU32(s);
    } else {
      CompleteStays(s, more);
      assert ReadU32(s + more) == ReadU32(s);
      if Interpret(c, First(s)).Ok? {
        FailureStays(c, Rest(s), more);
      }
    }
  }

  /** Cutting the stream into chunks changes neither the messages nor the buffer, and the decoder fails on
      some chunk exactly when the whole stream fails. What a failing push had decoded is not returned, so
      after a failure the cut decides how many of the earlier messages were. */
  lemma {:induction false} ChunksDoNotMatter<M>(c: Codec<M>, buffer: Bytes, chunks: seq<Bytes>)
    requires Decode(c, buffer) == Outcome([], buffer, None)
    ensures
      var o, whole := PushAll(c, buffer, chunks), Decode(c, buffer + Concat(chunks));
      && o.error == whole.error
      && (whole.error.None? ==> o == whole)
      && o.messages <= whole.messages
    decreases |chunks|
  {
    if chunks == [] {
      assert buffer + Concat(chunks) == buffer;
    } else {
      var s, more := buffer + chunks[0], Concat(chunks[1..]);
      Assoc(buffer, chunks[0], more);
      if Decode(c, s).error.Some? {
        FailureStays(c, s, more);
      } else {
        DecodeAppend(c, s, more);
        Settled(c, s);
        ChunksDoNotMatter(c, Decode(c, s).rest, chunks[1..]);
      }
    }
  }

  lemma {:induction false} Settled<M>(c: Codec<M>, s: Bytes)
    requires Decode(c, s).error.None?
    ensures Decode(c, Decode(c, s).rest) == Outcome([], Decode(c, s).rest, None)
    decreases |s|
  {
    if Complete(s) {
      Settled(c, Rest(s));
    }
  }

  /** The encoders write the message: its session id and its payload have a length they can write. */
  ghost predicate Writable<M>(c: Codec<M>, m: Message<M>) {
    && (m.Data? ==> |m.sessionId| < 0x100)
    && (m.Control? ==> c.read(c.write(m.message)) == Some(m.message))
    && PayloadSize(c, m) < UINT32_LIMIT
  }

  /** The limit that only the decoder knows. */
  predicate Fits<M>(c: Codec<M>, m: Message<M>) { PayloadSize(c, m) <= 8 * 1024 * 1024 }

  /** The messages as the encoders write them one after another. */
  ghost function Wire<M>(c: Codec<M>, messages: seq<Message<M>>): Bytes
    requires forall m <- messages :: Writable(c, m)
  {
    if messages == [] then []
    else
      assert Writable(c, messages[0]);
      Encode(ToFrame(c, messages[0])) + Wire(c, messages[1..])
  }

  /** The messages in front of the first one that is too long. */
  function Fitting<M>(c: Codec<M>, messages: seq<Message<M>>): seq<Message<M>> {
    if messages == [] || !Fits(c, messages[0]) then [] else [messages[0]] + Fitting(c, messages[1..])
  }

  lemma {:induction false} FittingMeans<M>(c: Codec<M>, messages: seq<Message<M>>)
    ensures
      var r := Fitting(c, messages);
      && |r| <= |messages| && r == messages[..|r|]
      && (forall i :: 0 <= i < |r| ==> Fits(c, messages[i]))
      && (|r| < |messages| ==> !Fits(c, messages[|r|]))
  {
    if messages != [] && Fits(c, messages[0]) { FittingMeans(c, messages[1..]); }
  }

  lemma AllFit<M>(c: Codec<M>, messages: seq<Message<M>>)
    ensures Fitting(c, messages) == messages <==> forall m <- messages :: Fits(c, m)
  {
    FittingMeans(c, messages);
    if forall m <- messages :: Fits(c, m) {
      assert forall i :: 0 <= i < |messages| ==> Fits(c, messages[i]);
    }
  }

  lemma FirstOnWire<M>(c: Codec<M>, m: Message<M>, tail: Bytes)
    requires Writable(c, m)
    ensures !Fits(c, m) ==> Decode(c, Encode(ToFrame(c, m)) + tail) == Outcome([], Encode(ToFrame(c, m)) + tail, Some(TooLarge))
    ensures Fits(c, m) ==>
      Decode(c, Encode(ToFrame(c, m)) + tail) == Outcome([m] + Decode(c, tail).messages, Decode(c, tail).rest, Decode(c, tail).error)
  {
    FirstOfEncoded(ToFrame(c, m), tail);
    ReadWrittenHeader(ToFrame(c, m), tail);
    InterpretEncoded(c, m);
  }

  /** What the decoder makes of what the encoders write: all messages exactly if all fit, and otherwise those in
      front of the first long one, where it fails. */
  lemma {:induction false} DecodeOfWire<M>(c: Codec<M>, messages: seq<Message<M>>)
    requires forall m <- messages :: Writable(c, m)
    ensures
      var o := Decode(c, Wire(c, messages));
      && o.messages == Fitting(c, messages) && (o.error == None <==> Fitting(c, messages) == messages)
      && (if Fitting(c, messages) == messages then o.error == None && o.rest == [] else o.error == Some(TooLarge))
    ensures Decode(c, Wire(c, messages)) == Outcome(messages, [], None) <==> forall m <- messages :: Fits(c, m)
  {
    AllFit(c, messages);
    if messages != [] {
      assert Writable(c, messages[0]);
      FirstOnWire(c, messages[0], Wire(c, messages[1..]));
      DecodeOfWire(c, messages[1..]);
      assert messages == [messages[0]] + messages[1..];
    }
  }

  /** Any cutting of any concatenation of encoded messages decodes to exactly these messages, if all fit. The
      encoders do not check the limit: with a message that does not, anywhere in the stream, the decoder fails
      there, and has returned no more than the messages in front of it. */
  lemma DecodesExactlyWhatFits<M>(c: Codec<M>, messages: seq<Message<M>>, chunks: seq<Bytes>)
    requires (forall m <- messages :: Writable(c, m)) && Concat(chunks) == Wire(c, messages)
    ensures PushAll(c, [], chunks) == Outcome(messages, [], None) <==> forall m <- messages :: Fits(c, m)
    ensures !(forall m <- messages :: Fits(c, m)) ==>
      PushAll(c, [], chunks).error == Some(TooLarge) && PushAll(c, [], chunks).messages <= Fitting(c, messages)
  {
    ChunksDoNotMatter(c, [], chunks);
    assert [] + Concat(chunks) == Wire(c, messages);
    DecodeOfWire(c, messages);
    AllFit(c, messages);
  }

  /** Inputs for the two other failures: a data frame without a payload, and a control frame whose empty payload
      is not JSON. */
  lemma ShortestFailures<M>(c: Codec<M>)
    requires c.read([]) == None
    ensures Decode(c, [0, 0, 0, 0, DATA]).error == Some(EmptyData)
    ensures Decode(c, [0, 0, 0, 0, CONTROL]).error == Some(BadControl)
  {
    assert First([0, 0, 0, 0, DATA]) == Frame(DATA, []);
    assert First([0, 0, 0, 0, CONTROL]) == Frame(CONTROL, []);
  }

  // ---------------------------------------------------------------- the operations

  method EncodeControl<M>(c: Codec<M>, message: M) returns (frame: Result<array<Byte>, EncodeError>)
    ensures frame.Ok? <==> |c.write(message)| < UINT32_LIMIT
    ensures frame.Ok? ==> fresh(frame.value) && frame.value[..] == Encode(ToFrame(c, Control(message)))
  {
    var buffer := EncodeFrame(CONTROL, c.write(message));
    frame := if buffer.None? then Err(FrameTooLong) else Ok(buffer.value);
  }

  method EncodeData(sessionId: Bytes, data: Bytes) returns (frame: Result<array<Byte>, EncodeError>)
    ensures frame.Ok? <==> |sessionId| < 0x100 && 1 + |sessionId| + |data| < UINT32_LIMIT
    ensures frame.Ok? ==> fresh(frame.value) && frame.value[..] == Encode(Frame(DATA, [|sessionId|] + sessionId + data))
  {
    if |sessionId| > 255 { return Err(SessionIdTooLong); }
    var payload := new Byte[1 + |sessionId| + |data|](_ => 0);
    payload[0] := |sessionId|;
    CopyInto(payload, 1, sessionId);
    CopyInto(payload, 1 + |sessionId|, data);
    assert payload[..] == [|sessionId|] + sessionId + data;
    var buffer := EncodeFrame(DATA, payload[..]);
    frame := if buffer.None? then Err(FrameTooLong) else Ok(buffer.value);
  }

  /** Decoding one good frame and going on, after these messages. */
  lemma DecodeStep<M>(c: Codec<M>, soFar: seq<Message<M>>, s: Bytes)
    requires !Oversize(s) && Complete(s) && Interpret(c, First(s)).Ok?
    ensures
      var o, later := Decode(c, s), Decode(c, Rest(s));
      && soFar + o.messages == (soFar + Interpret(c, First(s)).value) + later.messages
      && o.rest == later.rest && o.error == later.error
  {
    Assoc(soFar, Interpret(c, First(s)).value, Decode(c, Rest(s)).messages);
  }

  /** Where decoding stops. */
  lemma DecodeStops<M>(c: Codec<M>, s: Bytes)
    ensures Oversize(s) ==> Decode(c, s) == Outcome([], s, Some(TooLarge))
    ensures !Oversize(s) && !Complete(s) ==> Decode(c, s) == Outcome([], s, None)
    ensures !Oversize(s) && Complete(s) && Interpret(c, First(s)).Err? ==>
              Decode(c, s) == Outcome([], s, Some(Interpret(c, First(s)).error))
  {
  }

  class MuxDecoder<!M> {
    const c: Codec<M>
    var buffer: Bytes

    constructor (c: Codec<M>)
      ensures this.c == c && buffer == []
    {
      this.c := c;
      buffer := [];
    }

    method Push(chunk: Bytes) returns (out: Result<seq<Message<M>>, DecodeError>)
      modifies this
      ensures (out, buffer) == Pushed(c, old(buffer), chunk)
    {
      hide Decode, Interpret;
      buffer := if |buffer| == 0 then chunk else buffer + chunk;
      assert buffer == old(buffer) + chunk;
      ghost var stream := buffer;
      var messages: seq<Message<M>> := [];
      assert messages + Decode(c, buffer).messages == Decode(c, buffer).messages;
      while |buffer| >= HEADER_SIZE
        invariant Decode(c, stream) ==
                    Outcome(messages + Decode(c, buffer).messages, Decode(c, buffer).rest, Decode(c, buffer).error)
        decreases |buffer|
      {
        DecodeStops(c, buffer);
        var length := ReadU32(buffer);
        if length > MAX_PAYLOAD { return Err(TooLarge); }
        var total := HEADER_SIZE + length;
        if |buffer| < total { break; }
        var tag := buffer[4];
        var payload := buffer[HEADER_SIZE..total];
        var decoded := DecodeFrame(tag, payload);
        if decoded.Err? { return Err(decoded.error); }
        DecodeStep(c, messages, buffer);
        messages := messages + decoded.value;
        buffer := buffer[total..];
      }
      DecodeStops(c, buffer);
      assert messages + [] == messages;
      out := Ok(messages);
    }

    method DecodeFrame(tag: Byte, payload: Bytes) returns (out: Result<seq<Message<M>>, DecodeError>)
      ensures out == Interpret(c, Frame(tag, payload))
    {
      if tag == CONTROL {
        var message := c.read(payload);
        if message.None? { return Err(BadControl); }
        out := Ok([Control(message.value)]);
      } else if tag == DATA {
        if payload == [] { return Err(EmptyData); }
        var cut := Min(1 + payload[0] as int, |payload|);
        out := Ok([Data(payload[1..cut], payload[cut..])]);
      } else {
        out := Ok([]);
      }
    }
  }
}
