/** Length-prefixed frames over a byte stream: the encoder and the decoder of the IPC sockets. */
module Frames {
  import opened Base

  const HEADER_SIZE := 5
  const UINT32_LIMIT := 0x1_0000_0000

  /** A type tag and a payload. Tags the program does not know are carried like any other. */
  datatype Frame = Frame(tag: Byte, payload: Bytes)

  // ---------------------------------------------------------------- big-endian lengths

  function U32(n: nat): (b: Bytes)
    requires n < UINT32_LIMIT
    ensures |b| == 4
  {
    [n / 0x100_0000, n / 0x1_0000 % 0x100, n / 0x100 % 0x100, n % 0x100]
  }

  function ReadU32(s: Bytes): (n: nat)
    requires |s| >= 4
    ensures n < UINT32_LIMIT
  {
    s[0] as int * 0x100_0000 + s[1] as int * 0x1_0000 + s[2] as int * 0x100 + s[3] as int
  }

  lemma ReadWrittenU32(n: nat, rest: Bytes)
    requires n < UINT32_LIMIT
    ensures ReadU32(U32(n) + rest) == n
  {
    var b := U32(n);
    assert (b + rest)[0] == b[0] && (b + rest)[1] == b[1] && (b + rest)[2] == b[2] && (b + rest)[3] == b[3];
    assert n / 0x1_0000 == n / 0x100_0000 * 0x100 + n / 0x1_0000 % 0x100;
    assert n / 0x100 == n / 0x1_0000 * 0x100 + n / 0x100 % 0x100;
  }

  lemma WriteReadU32(s: Bytes)
    requires |s| >= 4
    ensures U32(ReadU32(s)) == s[..4]
  {
    var n := ReadU32(s);
    assert n / 0x100 == s[0] as int * 0x1_0000 + s[1] as int * 0x100 + s[2] as int;
    assert n / 0x1_0000 == s[0] as int * 0x100 + s[1] as int;
    assert n / 0x100_0000 == s[0];
    assert n % 0x100 == s[3];
    assert n / 0x100 % 0x100 == s[2];
    assert n / 0x1_0000 % 0x100 == s[1];
  }

  // ---------------------------------------------------------------- one frame

  predicate Encodable(f: Frame) { |f.payload| < UINT32_LIMIT }

  function Encode(f: Frame): (s: Bytes)
    requires Encodable(f)
    ensures |s| == HEADER_SIZE + |f.payload|
  {
    U32(|f.payload|) + [f.tag] + f.payload
  }

  /** An encoded frame: the payload's length, most significant byte first, then the tag, then the payload. */
  lemma WireFormat(f: Frame)
    requires Encodable(f)
    ensures
      var s := Encode(f);
      && |s| == 5 + |f.payload| && s[4] == f.tag && s[5..] == f.payload
      && 16777216 * s[0] as int + 65536 * s[1] as int + 256 * s[2] as int + s[3] as int == |f.payload|
  {
    ReadWrittenU32(|f.payload|, [f.tag] + f.payload);
    assert U32(|f.payload|) + ([f.tag] + f.payload) == Encode(f);
  }

  function EncodeAll(frames: seq<Frame>): Bytes
    requires forall f <- frames :: Encodable(f)
  {
    if frames == [] then [] else Encode(frames[0]) + EncodeAll(frames[1..])
  }

  /** The buffer holds a whole frame. */
  predicate Complete(s: Bytes) { |s| >= HEADER_SIZE && |s| >= HEADER_SIZE + ReadU32(s) }

  function First(s: Bytes): (f: Frame)
    requires Complete(s)
    ensures Encodable(f)
  {
    Frame(s[4], s[HEADER_SIZE..HEADER_SIZE + ReadU32(s)])
  }

  function Rest(s: Bytes): (r: Bytes)
    requires Complete(s)
    ensures |r| < |s|
  {
    s[HEADER_SIZE + ReadU32(s)..]
  }

  lemma FirstOfEncoded(f: Frame, rest: Bytes)
    requires Encodable(f)
    ensures Complete(Encode(f) + rest) && First(Encode(f) + rest) == f && Rest(Encode(f) + rest) == rest
  {
    var s := Encode(f) + rest;
    assert s == U32(|f.payload|) + ([f.tag] + f.payload + rest);
    ReadWrittenU32(|f.payload|, [f.tag] + f.payload + rest);
  }

  lemma EncodeFirst(s: Bytes)
    requires Complete(s)
    ensures Encode(First(s)) + Rest(s) == s
  {
    WriteReadU32(s);
    assert s == s[..4] + [s[4]] + s[HEADER_SIZE..HEADER_SIZE + ReadU32(s)] + Rest(s);
  }

  lemma CompleteStays(s: Bytes, more: Bytes)
    requires Complete(s)
    ensures Complete(s + more) && First(s + more) == First(s) && Rest(s + more) == Rest(s) + more
  {
  }

  // ---------------------------------------------------------------- a whole stream

  /** The complete frames at the front of a stream, and what remains. */
  function Split(s: Bytes): (r: (seq<Frame>, Bytes))
    ensures forall f <- r.0 :: Encodable(f)
    ensures !Complete(r.1)
    decreases |s|
  {
    if !Complete(s) then ([], s)
    else
      var (frames, rest) := Split(Rest(s));
      ([First(s)] + frames, rest)
  }

  lemma EncodeCons(f: Frame, frames: seq<Frame>)
    requires Encodable(f) && forall g <- frames :: Encodable(g)
    ensures EncodeAll([f] + frames) == Encode(f) + EncodeAll(frames)
  {
    assert ([f] + frames)[1..] == frames;
  }

  /** Splitting loses nothing: the frames and the rest are the stream. */
  lemma {:induction false} SplitIsLossless(s: Bytes)
    ensures EncodeAll(Split(s).0) + Split(s).1 == s
    decreases |s|
  {
    if Complete(s) {
      SplitIsLossless(Rest(s));
      EncodeFirst(s);
      var (frames, rest) := Split(Rest(s));
      EncodeCons(First(s), frames);
      Assoc(Encode(First(s)), EncodeAll(frames), rest);
    }
  }

  /** And an incomplete remainder leaves no other way to split it. */
  lemma {:induction false} SplitOfEncoded(frames: seq<Frame>, rest: Bytes)
    requires (forall f <- frames :: Encodable(f)) && !Complete(rest)
    ensures Split(EncodeAll(frames) + rest) == (frames, rest)
  {
    if frames == [] {
      assert EncodeAll(frames) + rest == rest;
    } else {
      var tail := EncodeAll(frames[1..]) + rest;
      Assoc(Encode(frames[0]), EncodeAll(frames[1..]), rest);
      FirstOfEncoded(frames[0], tail);
      SplitOfEncoded(frames[1..], rest);
      assert frames == [frames[0]] + frames[1..];
    }
  }

  lemma {:induction false} SplitAppend(s: Bytes, more: Bytes)
    ensures
      var (frames, rest) := Split(s);
      Split(s + more) == (frames + Split(rest + more).0, Split(rest + more).1)
    decreases |s|
  {
    if Complete(s) {
      CompleteStays(s, more);
      SplitAppend(Rest(s), more);
      var (frames, rest) := Split(Rest(s));
      Assoc([First(s)], frames, Split(rest + more).0);
    } else {
      assert Split(s).0 + Split(s + more).0 == Split(s + more).0;
    }
  }

  // ---------------------------------------------------------------- the decoder, fed in chunks

  /** What pushing the chunks one after another yields in all, and the buffer it ends with. */
  function PushAll(buffer: Bytes, chunks: seq<Bytes>): (seq<Frame>, Bytes)
    decreases |chunks|
  {
    if chunks == [] then ([], buffer)
    else
      var (frames, rest) := Split(buffer + chunks[0]);
      var (more, last) := PushAll(rest, chunks[1..]);
      (frames + more, last)
  }

  /** The frames do not depend on how the stream was cut into chunks. */
  lemma {:induction false} ChunksDoNotMatter(buffer: Bytes, chunks: seq<Bytes>)
    requires !Complete(buffer)
    ensures PushAll(buffer, chunks) == Split(buffer + Concat(chunks))
    decreases |chunks|
  {
    if chunks == [] {
      assert buffer + Concat(chunks) == buffer;
    } else {
      ChunksDoNotMatter(Split(buffer + chunks[0]).1, chunks[1..]);
      SplitAppend(buffer + chunks[0], Concat(chunks[1..]));
      Assoc(buffer, chunks[0], Concat(chunks[1..]));
    }
  }

  /** Any cutting of any concatenation of encoded frames decodes to exactly these frames. */
  lemma DecodesWhatWasEncoded(frames: seq<Frame>, chunks: seq<Bytes>)
    requires (forall f <- frames :: Encodable(f)) && Concat(chunks) == EncodeAll(frames)
    ensures PushAll([], chunks) == (frames, [])
  {
    ChunksDoNotMatter([], chunks);
    assert [] + Concat(chunks) == EncodeAll(frames) + [];
    SplitOfEncoded(frames, []);
  }

  lemma Overwrite(s: Bytes, first: Bytes, at: nat, src: Bytes, i: nat)
    requires at + |src| <= |first| && i < |src|
    requires s == first[..at] + src[..i] + first[at + i..]
    ensures s[at + i := src[i]] == first[..at] + src[..i + 1] + first[at + i + 1..]
  {
  }

  method CopyInto(dst: array<Byte>, at: nat, src: Bytes)
    requires at + |src| <= dst.Length
    modifies dst
    ensures dst[..] == old(dst[..])[..at] + src + old(dst[..])[at + |src|..]
  {
    for i := 0 to |src|
      invariant dst[..] == old(dst[..])[..at] + src[..i] + old(dst[..])[at + i..]
    {
      ghost var before := dst[..];
      dst[at + i] := src[i];
      Overwrite(before, old(dst[..]), at, src, i);
      assert dst[..] == before[at + i := src[i]];
    }
  }

  /** encodeFrame and envelope: the frame is written piece by piece into a fresh buffer; a length that does
      not fit in 32 bits is an error. */
  method EncodeFrame(tag: Byte, payload: Bytes) returns (frame: Option<array<Byte>>)
    ensures frame.Some? <==> |payload| < UINT32_LIMIT
    ensures frame.Some? ==> fresh(frame.value) && frame.value[..] == Encode(Frame(tag, payload))
  {
    if |payload| >= UINT32_LIMIT { return None; }
    var buffer := new Byte[HEADER_SIZE + |payload|](_ => 0);
    CopyInto(buffer, 0, U32(|payload|));
    buffer[4] := tag;
    CopyInto(buffer, HEADER_SIZE, payload);
    frame := Some(buffer);
  }

  class FrameDecoder {
    var buffer: Bytes

    constructor ()
      ensures buffer == []
    {
      buffer := [];
    }

    method Push(chunk: Bytes) returns (frames: seq<Frame>)
      modifies this
      ensures (frames, buffer) == Split(old(buffer) + chunk)
    {
      buffer := if |buffer| == 0 then chunk else buffer + chunk;
      assert buffer == old(buffer) + chunk;
      ghost var stream := buffer;
      frames := [];
      assert frames + Split(buffer).0 == Split(buffer).0;
      while |buffer| >= HEADER_SIZE
        invariant Split(stream) == (frames + Split(buffer).0, Split(buffer).1)
        decreases |buffer|
      {
        ghost var before := buffer;
        var length := ReadU32(buffer);
        var total := HEADER_SIZE + length;
        if |buffer| < total { break; }
        var tag := buffer[4];
        var payload := buffer[HEADER_SIZE..total];
        Assoc(frames, [First(before)], Split(Rest(before)).0);
        frames := frames + [Frame(tag, payload)];
        buffer := buffer[total..];
      }
      assert frames + [] == frames;
    }
  }
}
