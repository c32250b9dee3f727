/** Cutting a byte stream into messages: what the deserializer's buffer and remembered header do, as values. */
module Frames {
  import opened Options
  import opened Bytes
  import opened Messages
  import opened MessageHeader

  /** One thing cut off the stream: a header that was refused, or a message. */
  datatype Frame = Refused(bytes: seq<byte>, error: ParseError) | Framed(header: Header, payload: seq<byte>)

  /** The bytes not yet used, and the header that was already taken off them. */
  datatype Decoder = Decoder(buffer: seq<byte>, header: Option<Header>)

  const IDLE: Decoder := Decoder([], None)

  function LengthFor(h: Header): nat {
    PayloadLength(h.messageType, h.ext)
  }

  function Push(d: Decoder, data: seq<byte>): Decoder {
    d.(buffer := d.buffer + data)
  }

  function TakePayload(h: Header, buffer: seq<byte>): (Option<Frame>, Decoder) {
    var n := LengthFor(h);
    if n > 0 && |buffer| < n then (None, Decoder(buffer, Some(h)))
    else (Some(Framed(h, buffer[..n])), Decoder(buffer[n..], None))
  }

  /** What a complete header leads to. */
  function TakeHeader(p: Protocol, bytes: seq<byte>, rest: seq<byte>): (Option<Frame>, Decoder)
    requires |bytes| == HEADER_SIZE
  {
    match ReadHeader(bytes)
    case None => (Some(Refused(bytes, InvalidHeader)), Decoder(rest, None))
    case Some(h) =>
      match Rejection(h, p)
      case Some(error) => (Some(Refused(bytes, error)), Decoder(rest, None))
      case None => TakePayload(h, rest)
  }

  function NextFrame(p: Protocol, d: Decoder): (r: (Option<Frame>, Decoder))
    ensures r.0.Some? ==> Size(r.1) < Size(d)
  {
    if d.header.Some? then TakePayload(d.header.value, d.buffer)
    else if |d.buffer| < HEADER_SIZE then (None, d)
    else TakeHeader(p, d.buffer[..HEADER_SIZE], d.buffer[HEADER_SIZE..])
  }

  function Size(d: Decoder): nat {
    2 * |d.buffer| + if d.header.Some? then 1 else 0
  }

  /** Everything that can be cut off now, and what is left. */
  function Drain(p: Protocol, d: Decoder): (seq<Frame>, Decoder)
    decreases Size(d)
  {
    var (frame, next) := NextFrame(p, d);
    if frame.None? then ([], next) else
      var (frames, last) := Drain(p, next);
      ([frame.value] + frames, last)
  }

  // ----- Later bytes do not change earlier frames -----

  lemma TakePayloadLater(h: Header, buffer: seq<byte>, data: seq<byte>)
    ensures
      var (frame, next) := TakePayload(h, buffer);
      frame.Some? ==> TakePayload(h, buffer + data) == (frame, Push(next, data))
  {
    hide LengthFor;
    var n := LengthFor(h);
    if n <= |buffer| {
      assert (buffer + data)[..n] == buffer[..n];
      assert (buffer + data)[n..] == buffer[n..] + data;
    }
  }

  lemma NextFrameLater(p: Protocol, d: Decoder, data: seq<byte>)
    ensures
      var (frame, next) := NextFrame(p, d);
      NextFrame(p, Push(d, data)) == if frame.Some? then (frame, Push(next, data)) else NextFrame(p, Push(next, data))
  {
    hide ReadHeader, Rejection, LengthFor;
    if d.header.Some? {
      TakePayloadLater(d.header.value, d.buffer, data);
    } else if |d.buffer| >= HEADER_SIZE {
      var bytes, rest := d.buffer[..HEADER_SIZE], d.buffer[HEADER_SIZE..];
      assert (d.buffer + data)[..HEADER_SIZE] == bytes;
      assert (d.buffer + data)[HEADER_SIZE..] == rest + data;
      if ReadHeader(bytes).Some? {
        TakePayloadLater(ReadHeader(bytes).value, rest, data);
      }
    }
  }

  lemma {:induction false} DrainLater(p: Protocol, d: Decoder, data: seq<byte>)
    ensures
      var (frames, last) := Drain(p, d);
      var (more, end) := Drain(p, Push(last, data));
      Drain(p, Push(d, data)) == (frames + more, end)
    decreases Size(d)
  {
    hide NextFrame;
    NextFrameLater(p, d, data);
    var (frame, next) := NextFrame(p, d);
    if frame.Some? {
      DrainLater(p, next, data);
      var (frames, last) := Drain(p, next);
      var more := Drain(p, Push(last, data)).0;
      assert [frame.value] + frames + more == [frame.value] + (frames + more);
    } else {
      var more := Drain(p, Push(next, data)).0;
      assert [] + more == more;
    }
  }

  /** After everything was cut off nothing more can be. */
  lemma {:induction false} DrainTwice(p: Protocol, d: Decoder)
    ensures Drain(p, Drain(p, d).1) == ([], Drain(p, d).1)
    decreases Size(d)
  {
    var (frame, next) := NextFrame(p, d);
    if frame.Some? {
      DrainTwice(p, next);
    } else {
      hide ReadHeader, Rejection, LengthFor;
    }
  }

  // ----- Chunks -----

  function Flatten(chunks: seq<seq<byte>>): seq<byte> {
    if chunks == [] then [] else Flatten(chunks[..|chunks| - 1]) + chunks[|chunks| - 1]
  }

  /** The chunks arrive one by one, and everything that can be cut off is cut off after each. */
  function DrainChunks(p: Protocol, chunks: seq<seq<byte>>): (seq<Frame>, Decoder) {
    if chunks == [] then ([], IDLE) else
      var (frames, last) := DrainChunks(p, chunks[..|chunks| - 1]);
      var (more, end) := Drain(p, Push(last, chunks[|chunks| - 1]));
      (frames + more, end)
  }

  /** However the bytes are cut into chunks, the frames and what is left are those of the whole stream. */
  lemma {:induction false} ChunkingDoesNotMatter(p: Protocol, chunks: seq<seq<byte>>)
    ensures DrainChunks(p, chunks) == Drain(p, Decoder(Flatten(chunks), None))
  {
    hide NextFrame;
    if chunks == [] {
      assert NextFrame(p, IDLE) == (None, IDLE) by { NothingFromNothing(p); }
    } else {
      var before, data := chunks[..|chunks| - 1], chunks[|chunks| - 1];
      ChunkingDoesNotMatter(p, before);
      DrainLater(p, Decoder(Flatten(before), None), data);
    }
  }

  lemma NothingFromNothing(p: Protocol)
    ensures NextFrame(p, IDLE) == (None, IDLE)
  {
  }

  // ----- What the frames mean -----

  function FrameBytes(f: Frame): seq<byte> {
    match f
    case Refused(bytes, _) => bytes
    case Framed(h, payload) => HeaderBytes(h) + payload
  }

  function StreamBytes(frames: seq<Frame>): seq<byte> {
    if frames == [] then [] else FrameBytes(frames[0]) + StreamBytes(frames[1..])
  }

  function PendingBytes(d: Decoder): seq<byte> {
    if d.header.Some? then HeaderBytes(d.header.value) + d.buffer else d.buffer
  }

  /** The frame is one that belongs on the stream: a whole message, or a header with the right reason to refuse it. */
  predicate SoundFrame(p: Protocol, f: Frame) {
    match f
    case Framed(h, payload) => Rejection(h, p).None? && |payload| == LengthFor(h)
    case Refused(bytes, error) =>
      && |bytes| == HEADER_SIZE
      && match ReadHeader(bytes)
         case None => error == InvalidHeader
         case Some(h) => Rejection(h, p) == Some(error)
  }

  /** Not enough bytes for another frame. */
  predicate Incomplete(p: Protocol, d: Decoder) {
    match d.header
    case None => |d.buffer| < HEADER_SIZE
    case Some(h) => Rejection(h, p).None? && |d.buffer| < LengthFor(h)
  }

  /** The frames and the leftover make up exactly the given bytes. */
  predicate IsSplit(p: Protocol, bytes: seq<byte>, frames: seq<Frame>, last: Decoder) {
    && (forall f :: f in frames ==> SoundFrame(p, f))
    && Incomplete(p, last)
    && StreamBytes(frames) + PendingBytes(last) == bytes
  }

  /** There is exactly one way to split a stream into sound frames and an incomplete rest, and draining finds it. */
  lemma DrainIsTheOnlySplit(p: Protocol, bytes: seq<byte>, frames: seq<Frame>, last: Decoder)
    ensures IsSplit(p, bytes, frames, last) <==> Drain(p, Decoder(bytes, None)) == (frames, last)
  {
    if IsSplit(p, bytes, frames, last) {
      SplitIsDrained(p, frames, last);
    } else if Drain(p, Decoder(bytes, None)) == (frames, last) {
      DrainIsSplit(p, bytes);
    }
  }

  lemma ReadSoundFrame(p: Protocol, f: Frame, rest: seq<byte>)
    requires SoundFrame(p, f)
    ensures NextFrame(p, Decoder(FrameBytes(f) + rest, None)) == (Some(f), Decoder(rest, None))
  {
    hide ReadHeader, Rejection, LengthFor, HeaderBytes;
    var s := FrameBytes(f) + rest;
    match f
    case Refused(bytes, _) =>
      assert s[..HEADER_SIZE] == bytes && s[HEADER_SIZE..] == rest;
    case Framed(h, payload) =>
      HeaderCodec(HeaderBytes(h), h);
      assert s[..HEADER_SIZE] == HeaderBytes(h) && s[HEADER_SIZE..] == payload + rest;
      assert (payload + rest)[..|payload|] == payload && (payload + rest)[|payload|..] == rest;
  }

  lemma ReadPending(p: Protocol, last: Decoder)
    requires Incomplete(p, last)
    ensures NextFrame(p, Decoder(PendingBytes(last), None)) == (None, last)
  {
    hide ReadHeader, Rejection, LengthFor, HeaderBytes;
    if last.header.Some? {
      var h := last.header.value;
      HeaderCodec(HeaderBytes(h), h);
      var s := PendingBytes(last);
      assert s[..HEADER_SIZE] == HeaderBytes(h) && s[HEADER_SIZE..] == last.buffer;
    }
  }

  lemma {:induction false} SplitIsDrained(p: Protocol, frames: seq<Frame>, last: Decoder)
    requires (forall f :: f in frames ==> SoundFrame(p, f)) && Incomplete(p, last)
    ensures Drain(p, Decoder(StreamBytes(frames) + PendingBytes(last), None)) == (frames, last)
    decreases |frames|
  {
    hide NextFrame, SoundFrame, Incomplete, FrameBytes, PendingBytes;
    if frames == [] {
      ReadPending(p, last);
      assert StreamBytes(frames) + PendingBytes(last) == PendingBytes(last);
    } else {
      var rest := StreamBytes(frames[1..]) + PendingBytes(last);
      assert StreamBytes(frames) + PendingBytes(last) == FrameBytes(frames[0]) + rest;
      ReadSoundFrame(p, frames[0], rest);
      SplitIsDrained(p, frames[1..], last);
      assert frames == [frames[0]] + frames[1..];
    }
  }

  lemma OneFrameIsSplit(p: Protocol, bytes: seq<byte>)
    ensures
      var (frame, next) := NextFrame(p, Decoder(bytes, None));
      if frame.None? then Incomplete(p, next) && PendingBytes(next) == bytes
      else SoundFrame(p, frame.value) && next.header.None? && FrameBytes(frame.value) + next.buffer == bytes
  {
    hide ReadHeader, Rejection, LengthFor, HeaderBytes;
    if |bytes| >= HEADER_SIZE {
      var front, rest := bytes[..HEADER_SIZE], bytes[HEADER_SIZE..];
      assert bytes == front + rest;
      if ReadHeader(front).Some? {
        var h := ReadHeader(front).value;
        HeaderCodec(front, h);
        var n := LengthFor(h);
        if n <= |rest| {
          assert rest == rest[..n] + rest[n..];
          assert front + rest == front + rest[..n] + rest[n..];
        }
      }
    }
  }

  lemma {:induction false} DrainIsSplit(p: Protocol, bytes: seq<byte>)
    ensures var (frames, last) := Drain(p, Decoder(bytes, None)); IsSplit(p, bytes, frames, last)
    decreases |bytes|
  {
    OneFrameIsSplit(p, bytes);
    hide NextFrame, SoundFrame, Incomplete, FrameBytes, PendingBytes;
    var d := Decoder(bytes, None);
    var (frame, next) := NextFrame(p, d);
    if frame.None? {
      assert StreamBytes([]) + PendingBytes(next) == bytes;
    } else {
      assert Size(next) < Size(d);
      assert next == Decoder(next.buffer, None);
      DrainIsSplit(p, next.buffer);
      var (frames, last) := Drain(p, next);
      assert ([frame.value] + frames)[1..] == frames;
      assert StreamBytes([frame.value] + frames) == FrameBytes(frame.value) + StreamBytes(frames);
    }
  }
}
