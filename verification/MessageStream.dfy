/** What becomes of a frame, and the round trip of whole streams of messages. */
module MessageStream {
  import opened Options
  import opened Bytes
  import opened Messages
  import opened Payloads
  import opened MessageHeader
  import opened WireRoundTrip
  import opened Frames
  import NetworkFilter

  datatype Outcome = Received(message: Message, protocol: Protocol) | Failed(error: ParseError)

  /** What the deserializer sees of its duplicate filter. */
  datatype FilterView =
    | NoFilter
    | FilterView(hasher: seq<int> -> nat, size: nat, cutoff: nat, epoch: nat, history: seq<NetworkFilter.Call>)

  type Filter = v: FilterView | v.FilterView? ==> v.size > 0 witness NoFilter

  predicate IsFiltered(t: MessageType) {
    t.PublishType? || t.ConfirmAckType?
  }

  predicate Consults(v: Filter, f: Frame) {
    v.FilterView? && f.Framed? && IsFiltered(f.header.messageType)
  }

  /** The digest given to the message. */
  function Digest(v: Filter, f: Frame): nat {
    if Consults(v, f) then v.hasher(f.payload) else 0
  }

  predicate Seen(v: Filter, f: Frame) {
    Consults(v, f) && NetworkFilter.Matches(
      NetworkFilter.Slot(v.size, v.cutoff, v.history, Digest(v, f)), Digest(v, f), v.cutoff, v.epoch)
  }

  function FilterAfter(v: Filter, f: Frame): Filter {
    if Consults(v, f) then v.(history := v.history + [NetworkFilter.Applied(Digest(v, f), v.epoch)]) else v
  }

  function Interpret(f: Frame, seen: bool, digest: nat): Outcome {
    match f
    case Refused(_, error) => Failed(error)
    case Framed(h, payload) =>
      if seen then Failed(if h.messageType.ConfirmAckType? then DuplicateConfirmAck else DuplicatePublish) else
        match DecodeMessage(h.messageType, h.ext, payload, digest)
        case None => Failed(InvalidMessage(h.messageType))
        case Some(m) => Received(m, h.protocol)
  }

  function Deliver(v: Filter, f: Frame): Outcome {
    Interpret(f, Seen(v, f), Digest(v, f))
  }

  /** The outcomes of a sequence of frames when nobody else uses the filter, and the filter afterwards. */
  function DeliverAll(v: Filter, frames: seq<Frame>): (seq<Outcome>, Filter)
    decreases |frames|
  {
    if frames == [] then ([], v) else
      var (outcomes, last) := DeliverAll(FilterAfter(v, frames[0]), frames[1..]);
      ([Deliver(v, frames[0])] + outcomes, last)
  }

  // ----- A filter that is shared -----

  /** The filter at a later moment: it is the same table, its epoch has not gone back, and calls were only added to its
      history. It has not changed if nobody else used it. */
  ghost predicate Follows(v: Filter, later: Filter, alone: bool) {
    && (v.NoFilter? <==> later.NoFilter?)
    && (v.FilterView? ==>
      && later.hasher == v.hasher && later.size == v.size && later.cutoff == v.cutoff
      && v.epoch <= later.epoch && v.history <= later.history)
    && (alone ==> later == v)
  }

  ghost predicate InTime(v: Filter) {
    v.FilterView? ==> NetworkFilter.InOrder(v.history, v.epoch)
  }

  /** The filter as it was at each frame, and as it is now: each time the frame before was applied first, and then others
      made so many calls. */
  ghost predicate Snapshots(views: seq<Filter>, frames: seq<Frame>, now: Filter, others: nat -> nat) {
    && |views| == |frames| && InTime(now)
    && (forall i :: 0 <= i < |views| ==> InTime(views[i]))
    && forall i :: 0 <= i < |views| ==>
         Follows(FilterAfter(views[i], frames[i]), if i + 1 < |views| then views[i + 1] else now, others(i + 1) == 0)
  }

  lemma SnapshotsLater(views: seq<Filter>, frames: seq<Frame>, now: Filter, later: Filter, others: nat -> nat)
    requires Snapshots(views, frames, now, others) && Follows(now, later, others(|views|) == 0) && InTime(later)
    ensures Snapshots(views, frames, later, others)
  {
    hide FilterAfter;
  }

  lemma SnapshotsNext(views: seq<Filter>, frames: seq<Frame>, now: Filter, f: Frame, others: nat -> nat)
    requires Snapshots(views, frames, now, others)
    ensures Snapshots(views + [now], frames + [f], FilterAfter(now, f), others)
  {
    InTimeAfter(now, f);
    hide FilterAfter;
  }

  lemma InTimeAfter(v: Filter, f: Frame)
    requires InTime(v)
    ensures InTime(FilterAfter(v, f))
  {
    if Consults(v, f) {
      assert FilterAfter(v, f).history[..|v.history|] == v.history;
    }
  }

  /** The filter takes the frame for a duplicate: its digest is remembered, or an empty slot passes for it. */
  ghost predicate IsRepeated(v: Filter, f: Frame) {
    Consults(v, f) && (
      || NetworkFilter.Remembered(v.size, v.cutoff, v.history, Digest(v, f), v.epoch)
      || NetworkFilter.FalseHit(v.size, v.cutoff, v.history, Digest(v, f), v.epoch))
  }

  lemma SeenExactlyWhenRepeated(v: Filter, f: Frame)
    requires InTime(v)
    ensures Seen(v, f) <==> IsRepeated(v, f)
  {
    if Consults(v, f) {
      NetworkFilter.SeenExactlyWhenRemembered(v.size, v.cutoff, v.history, Digest(v, f), v.epoch);
    }
  }

  /** Without interference the outcomes depend on the bytes alone, however they are cut into chunks. */
  lemma SameBytesSameOutcomes(p: Protocol, v: Filter, chunks: seq<seq<byte>>, others: seq<seq<byte>>)
    requires Flatten(chunks) == Flatten(others)
    ensures DeliverAll(v, DrainChunks(p, chunks).0) == DeliverAll(v, DrainChunks(p, others).0)
    ensures DrainChunks(p, chunks).1 == DrainChunks(p, others).1
  {
    ChunkingDoesNotMatter(p, chunks);
    ChunkingDoesNotMatter(p, others);
  }

  // ----- Sending -----

  function HeaderFor(p: Protocol, m: Message): Header {
    Header(TypeOf(m), p, ExtensionsOf(m))
  }

  function FrameFor(p: Protocol, m: Message): Frame {
    Framed(HeaderFor(p, m), PayloadBytes(m))
  }

  /** The bytes a message is sent as. */
  function Serialized(p: Protocol, m: Message): seq<byte> {
    HeaderBytes(HeaderFor(p, m)) + PayloadBytes(m)
  }

  function Wire(p: Protocol, ms: seq<Message>): seq<byte> {
    if ms == [] then [] else Serialized(p, ms[0]) + Wire(p, ms[1..])
  }

  function FramesFor(p: Protocol, ms: seq<Message>): seq<Frame> {
    seq(|ms|, i requires 0 <= i < |ms| => FrameFor(p, ms[i]))
  }

  predicate AllWellFormed(ms: seq<Message>) {
    forall m :: m in ms ==> WellFormed(m)
  }

  /** A receiver that speaks `q` accepts headers of a sender that speaks `p`. */
  predicate Compatible(p: Protocol, q: Protocol) {
    p.network == q.network && p.versionUsing >= q.versionMin
  }

  lemma HeaderAccepted(p: Protocol, q: Protocol, m: Message)
    ensures Rejection(HeaderFor(p, m), q).None? <==> Compatible(p, q)
  {
    hide PayloadLength, ExtensionsOf;
    NothingIsTooBig(TypeOf(m), ExtensionsOf(m));
  }

  lemma {:induction false} WireIsStream(p: Protocol, ms: seq<Message>)
    ensures StreamBytes(FramesFor(p, ms)) == Wire(p, ms)
  {
    hide HeaderFor, PayloadBytes, HeaderBytes, FramesFor;
    FramesForTail(p, ms);
    if ms != [] {
      WireIsStream(p, ms[1..]);
    }
  }

  lemma FramesForTail(p: Protocol, ms: seq<Message>)
    ensures |FramesFor(p, ms)| == |ms|
    ensures ms != [] ==> FramesFor(p, ms)[0] == FrameFor(p, ms[0]) && FramesFor(p, ms)[1..] == FramesFor(p, ms[1..])
  {
    hide FrameFor;
  }

  lemma FramesAreSound(p: Protocol, q: Protocol, ms: seq<Message>)
    requires Compatible(p, q) && AllWellFormed(ms)
    ensures forall f :: f in FramesFor(p, ms) ==> SoundFrame(q, f)
  {
    hide Rejection, LengthFor, ExtensionsOf, PayloadBytes, TypeOf, WellFormed;
    forall f | f in FramesFor(p, ms) ensures SoundFrame(q, f) {
      var i :| 0 <= i < |ms| && f == FrameFor(p, ms[i]);
      HeaderAccepted(p, q, ms[i]);
      LengthAgrees(ms[i]);
      LengthOfFrame(p, ms[i]);
    }
  }

  lemma LengthOfFrame(p: Protocol, m: Message)
    ensures LengthFor(HeaderFor(p, m)) == PayloadLength(TypeOf(m), ExtensionsOf(m))
  {
  }

  /** The message with the digest a filtering receiver fills in. */
  function WithDigest(m: Message, digest: nat): Message {
    match m
    case Publish(block, isOriginator, _) => Publish(block, isOriginator, digest)
    case ConfirmAck(vote, isRebroadcasted, _) => ConfirmAck(vote, isRebroadcasted, digest)
    case _ => m
  }

  lemma DigestPassesThrough(t: MessageType, ext: U16, s: seq<byte>, digest: nat)
    ensures
      var plain := DecodeMessage(t, ext, s, 0);
      DecodeMessage(t, ext, s, digest) == if plain.None? then None else Some(WithDigest(plain.value, digest))
  {
    hide DecodeAscPullReq, DecodeBulkPull, DecodeBulkPullAccount, DecodeFrontierReq, DecodeVote, DecodeHandshake, DecodeTelemetryAck,
         DecodeConfirmReq, DecodeAscPullAck, ReadPeers, ReadBlock;
  }

  /** What the receiver makes of a message that was sent. */
  function Expected(v: Filter, p: Protocol, m: Message): Outcome {
    var f := FrameFor(p, m);
    if Seen(v, f) then Failed(if m.ConfirmAck? then DuplicateConfirmAck else DuplicatePublish)
    else Received(WithDigest(m, Digest(v, f)), p)
  }

  lemma DeliverWellFormed(v: Filter, p: Protocol, m: Message)
    requires WellFormed(m)
    ensures Deliver(v, FrameFor(p, m)) == Expected(v, p, m)
  {
    PayloadReadBack(m);
    DigestPassesThrough(TypeOf(m), ExtensionsOf(m), PayloadBytes(m), Digest(v, FrameFor(p, m)));
    hide DecodeMessage, ExtensionsOf, PayloadBytes, Seen, Digest, WellFormed, WithDigest;
  }

  /** The filter after a list of messages arrived. */
  function FilterAfterAll(v: Filter, p: Protocol, ms: seq<Message>): Filter
    decreases |ms|
  {
    if ms == [] then v else FilterAfterAll(FilterAfter(v, FrameFor(p, ms[0])), p, ms[1..])
  }

  lemma {:induction false} DeliverList(v: Filter, p: Protocol, ms: seq<Message>)
    requires AllWellFormed(ms)
    ensures
      var outcomes := DeliverAll(v, FramesFor(p, ms)).0;
      && |outcomes| == |ms|
      && forall i :: 0 <= i < |ms| ==> outcomes[i] == Expected(FilterAfterAll(v, p, ms[..i]), p, ms[i])
    decreases |ms|
  {
    hide WellFormed, Deliver, Expected, FilterAfter, FrameFor;
    if ms != [] {
      var first, rest := FrameFor(p, ms[0]), ms[1..];
      var after := FilterAfter(v, first);
      DeliverWellFormed(v, p, ms[0]);
      DeliverList(after, p, rest);
      assert FramesFor(p, ms)[0] == first && FramesFor(p, ms)[1..] == FramesFor(p, rest);
      forall i | 1 <= i < |ms|
        ensures FilterAfterAll(v, p, ms[..i]) == FilterAfterAll(after, p, rest[..i - 1])
      {
        assert ms[..i][0] == ms[0] && ms[..i][1..] == rest[..i - 1];
      }
    }
  }

  lemma {:induction false} FilterAfterAllNext(v: Filter, p: Protocol, ms: seq<Message>, m: Message)
    ensures FilterAfterAll(v, p, ms + [m]) == FilterAfter(FilterAfterAll(v, p, ms), FrameFor(p, m))
    decreases |ms|
  {
    hide FilterAfter, FrameFor;
    if ms == [] {
      assert ([] + [m])[1..] == [];
    } else {
      assert (ms + [m])[1..] == ms[1..] + [m];
      FilterAfterAllNext(FilterAfter(v, FrameFor(p, ms[0])), p, ms[1..], m);
    }
  }

  /** If nobody else uses the filter, it is at each message what the messages before have made of it. */
  lemma {:induction false} SnapshotsAlone(views: seq<Filter>, now: Filter, others: nat -> nat, p: Protocol, ms: seq<Message>, i: nat)
    requires Snapshots(views, FramesFor(p, ms), now, others) && i < |ms| && forall j :: 0 < j <= i ==> others(j) == 0
    ensures views[i] == FilterAfterAll(views[0], p, ms[..i])
    decreases i
  {
    hide FilterAfter, FrameFor, InTime;
    if i > 0 {
      SnapshotsAlone(views, now, others, p, ms, i - 1);
      FilterAfterAllNext(views[0], p, ms[..i - 1], ms[i - 1]);
      assert ms[..i - 1] + [ms[i - 1]] == ms[..i];
      assert FramesFor(p, ms)[i - 1] == FrameFor(p, ms[i - 1]);
    }
  }

  /** A frame the filter looks at is a duplicate when it comes again at once. */
  lemma RepeatedAtOnce(v: Filter, f: Frame)
    ensures Seen(FilterAfter(v, f), f) <==> Consults(FilterAfter(v, f), f)
  {
    if Consults(v, f) {
      var after := FilterAfter(v, f);
      assert after.history[..|v.history|] == v.history;
    }
  }

  /** With a filter, a vote that comes again at once is a duplicate vote and a block a duplicate block; nothing else is ever
      taken for a duplicate. */
  lemma ResentAtOnce(v: Filter, p: Protocol, m: Message)
    requires v.FilterView?
    ensures
      var again := Expected(FilterAfter(v, FrameFor(p, m)), p, m);
      && (m.ConfirmAck? ==> again == Failed(DuplicateConfirmAck))
      && (m.Publish? ==> again == Failed(DuplicatePublish))
      && (!m.ConfirmAck? && !m.Publish? ==> again == Received(m, p))
  {
    hide PayloadBytes, ExtensionsOf, NetworkFilter.Matches;
    RepeatedAtOnce(v, FrameFor(p, m));
  }

  /** A block or a vote that is new gets the digest of its payload. */
  lemma NewGetsItsDigest(v: Filter, p: Protocol, m: Message)
    requires v.FilterView? && !Seen(v, FrameFor(p, m)) && (m.Publish? || m.ConfirmAck?)
    ensures Expected(v, p, m) == Received(WithDigest(m, v.hasher(PayloadBytes(m))), p)
  {
    hide PayloadBytes, ExtensionsOf, Seen;
  }

  /** A list of well-formed messages, cut into chunks in any way, arrives complete and in order, and nothing
      is left over. Only a message the duplicate filter has seen is turned into an error. */
  lemma StreamRoundTrip(v: Filter, p: Protocol, q: Protocol, ms: seq<Message>, chunks: seq<seq<byte>>)
    requires Compatible(p, q) && AllWellFormed(ms) && Flatten(chunks) == Wire(p, ms)
    ensures DrainChunks(q, chunks) == (FramesFor(p, ms), IDLE)
    ensures
      var outcomes := DeliverAll(v, DrainChunks(q, chunks).0).0;
      && |outcomes| == |ms|
      && forall i :: 0 <= i < |ms| ==> outcomes[i] == Expected(FilterAfterAll(v, p, ms[..i]), p, ms[i])
  {
    hide Expected, FilterAfterAll, Deliver, WellFormed, SoundFrame, Drain;
    ChunkingDoesNotMatter(q, chunks);
    FramesAreSound(p, q, ms);
    WireIsStream(p, ms);
    assert StreamBytes(FramesFor(p, ms)) + PendingBytes(IDLE) == Wire(p, ms);
    DrainIsTheOnlySplit(q, Wire(p, ms), FramesFor(p, ms), IDLE);
    DeliverList(v, p, ms);
  }

  /** Without a filter the messages come back as they were. */
  lemma PlainRoundTrip(p: Protocol, q: Protocol, ms: seq<Message>, chunks: seq<seq<byte>>)
    requires Compatible(p, q) && AllWellFormed(ms) && Flatten(chunks) == Wire(p, ms)
    ensures DeliverAll(NoFilter, DrainChunks(q, chunks).0).0 == seq(|ms|, i requires 0 <= i < |ms| => Received(ms[i], p))
  {
    hide DrainChunks, DeliverAll, Wire, WellFormed, Expected, FilterAfterAll;
    StreamRoundTrip(NoFilter, p, q, ms, chunks);
    forall i | 0 <= i < |ms| ensures Expected(FilterAfterAll(NoFilter, p, ms[..i]), p, ms[i]) == Received(ms[i], p) {
      StaysUnfiltered(p, ms[..i]);
      ExpectedPlain(p, ms[i]);
    }
  }

  lemma ExpectedPlain(p: Protocol, m: Message)
    requires WellFormed(m)
    ensures Expected(NoFilter, p, m) == Received(m, p)
  {
    hide ExtensionsOf, PayloadBytes, NoZeroPair;
  }

  lemma {:induction false} StaysUnfiltered(p: Protocol, ms: seq<Message>)
    ensures FilterAfterAll(NoFilter, p, ms) == NoFilter
    decreases |ms|
  {
    if ms != [] {
      StaysUnfiltered(p, ms[1..]);
    }
  }

  /** A receiver without a filter gets one sent message back, with nothing left over, exactly when the message is
      well formed and the protocols are compatible. */
  lemma SurvivesExactlyWhenWellFormed(p: Protocol, q: Protocol, m: Message)
    ensures
      var (frames, last) := Drain(q, Decoder(Serialized(p, m), None));
      DeliverAll(NoFilter, frames).0 == [Received(m, p)] && last == IDLE <==> WellFormed(m) && Compatible(p, q)
  {
    var (frames, last) := Drain(q, Decoder(Serialized(p, m), None));
    if WellFormed(m) && Compatible(p, q) {
      SentAlone(p, q, m);
    } else if DeliverAll(NoFilter, frames).0 == [Received(m, p)] && last == IDLE {
      ReceivedAlone(p, q, m);
    }
  }

  lemma SentAlone(p: Protocol, q: Protocol, m: Message)
    requires WellFormed(m) && Compatible(p, q)
    ensures
      var (frames, last) := Drain(q, Decoder(Serialized(p, m), None));
      DeliverAll(NoFilter, frames).0 == [Received(m, p)] && last == IDLE
  {
    hide WellFormed, Serialized, Drain, DeliverAll, NextFrame;
    var s := Serialized(p, m);
    assert Wire(p, [m]) == s + Wire(p, []) == s;
    assert Flatten([s]) == Flatten([s][..0]) + s == s;
    StreamRoundTrip(NoFilter, p, q, [m], [s]);
    PlainRoundTrip(p, q, [m], [s]);
    ChunkingDoesNotMatter(q, [s]);
  }

  lemma ReceivedAlone(p: Protocol, q: Protocol, m: Message)
    requires
      var (frames, last) := Drain(q, Decoder(Serialized(p, m), None));
      DeliverAll(NoFilter, frames).0 == [Received(m, p)] && last == IDLE
    ensures WellFormed(m) && Compatible(p, q)
  {
    var s := Serialized(p, m);
    var (frames, last) := Drain(q, Decoder(s, None));
    var f := OnlyFrame(frames, m, p);
    DrainIsSplit(q, s);
    hide Drain, NextFrame, WellFormed, DecodeMessage, ExtensionsOf, PayloadBytes, ReadHeader;
    assert StreamBytes([f]) == FrameBytes(f) + StreamBytes([]) == FrameBytes(f);
    assert FrameBytes(f) == s;
    HeaderCodec(HeaderBytes(HeaderFor(p, m)), HeaderFor(p, m));
    HeaderCodec(HeaderBytes(f.header), f.header);
    assert s[..HEADER_SIZE] == HeaderBytes(f.header) == HeaderBytes(HeaderFor(p, m));
    assert s[HEADER_SIZE..] == f.payload == PayloadBytes(m);
    OnlyWellFormedIsRead(m, f.payload);
    HeaderAccepted(p, q, m);
  }

  /** The one frame behind the one message. */
  lemma OnlyFrame(frames: seq<Frame>, m: Message, p: Protocol) returns (f: Frame)
    requires DeliverAll(NoFilter, frames).0 == [Received(m, p)]
    ensures frames == [f] && f.Framed? && DecodeMessage(f.header.messageType, f.header.ext, f.payload, 0) == Some(m)
  {
    hide DecodeMessage;
    f := frames[0];
    var rest := DeliverAll(NoFilter, frames[1..]).0;
    assert ([Deliver(NoFilter, f)] + rest)[0] == Received(m, p) && |[Deliver(NoFilter, f)] + rest| == 1;
    assert rest == [];
    assert frames == [f] + frames[1..];
  }
}
