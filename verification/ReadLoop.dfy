/** The loop that reads a socket and drives the receiver, and what the peer's messages come to over a whole connection. */
module ReadLoop {
  import opened Options
  import opened Bytes
  import opened Messages
  import opened MessageHeader
  import opened WireRoundTrip
  import opened Frames
  import opened MessageStream
  import HandshakeProcess
  import MessageDeserializer
  import opened NanoDataReceiver

  /** What other connections do to the shared cookies. */
  method OtherConnections(receiver: NanoDataReceiver)
    requires receiver.Valid() && receiver.Tracked()
    modifies receiver.handshake.cookies
    ensures receiver.Valid() && receiver.Tracked()
  {
    hide Faithful, QueuedInOrder, Greeted, VersionNoted, Authenticated, RefusalsNoted, Snapshots;
    var writes: nat :| true;
    receiver.handshake.OtherConnections(writes);
  }

  /** The frames that are complete but not handled yet. */
  ghost function Unhandled(receiver: NanoDataReceiver): seq<Frame>
    reads receiver.deserializer
  {
    Drain(receiver.deserializer.protocol, receiver.deserializer.State()).0
  }

  /** The receiver ended the connection for a reason: something was read, and it is not a realtime connection yet or what was
      read last is an error. */
  ghost predicate RightlyAborted(receiver: NanoDataReceiver)
    reads receiver
  {
    receiver.outcomes != [] && (receiver.mode.Undefined? || IsFatal(receiver.outcomes[|receiver.outcomes| - 1]))
  }

  /** The queue takes nothing it is offered from one offer to another. */
  ghost predicate NoneTaken(accepts: nat -> bool, from: nat, to: nat) {
    forall k :: from <= k < to ==> !accepts(k)
  }

  /** Polls until the receiver goes on, gives up or the channel is cancelled, which happens after so many polls. It gives up
      only during the handshake; a realtime connection goes on at the first offer the queue takes. */
  method WaitWhilePaused(receiver: NanoDataReceiver, patience: nat) returns (open: bool, left: nat)
    requires receiver.Valid() && receiver.Tracked() && receiver.phase.Paused?
    modifies receiver`mode, receiver`realtimeFrom, receiver`phase, receiver`enqueued, receiver`offers, receiver`due, receiver`polls,
             receiver.handshake.cookies
    ensures receiver.Valid() && receiver.Tracked() && !receiver.phase.Paused? && open == receiver.phase.Reading?
    ensures left <= patience && receiver.polls == old(receiver.polls) + patience - left
    ensures receiver.phase.Cancelled? ==> left == 0
    ensures receiver.phase.Aborted? ==> receiver.mode.Undefined?
    ensures old(receiver.mode).Undefined? ==> receiver.offers == old(receiver.offers)
    ensures old(receiver.mode).Undefined? && receiver.phase.Reading? ==>
      receiver.mode.Realtime? && receiver.realtimeFrom == |receiver.outcomes|
    ensures old(receiver.mode).Realtime? ==>
      && receiver.mode.Realtime? && receiver.realtimeFrom == old(receiver.realtimeFrom)
      && receiver.offers == old(receiver.offers) + patience - left
      && if receiver.phase.Reading? then
           && left < patience && receiver.accepts(receiver.offers - 1)
           && NoneTaken(receiver.accepts, old(receiver.offers), receiver.offers - 1)
         else NoneTaken(receiver.accepts, old(receiver.offers), receiver.offers)
  {
    hide NanoDataReceiver.Valid, NanoDataReceiver.Tracked;
    open, left := false, patience;
    while true
      invariant receiver.Valid() && receiver.Tracked() && receiver.phase.Paused?
      invariant left <= patience && receiver.polls == old(receiver.polls) + patience - left
      invariant old(receiver.mode).Realtime? ==>
        && receiver.mode.Realtime? && receiver.realtimeFrom == old(receiver.realtimeFrom)
        && receiver.offers == old(receiver.offers) + patience - left
        && NoneTaken(receiver.accepts, old(receiver.offers), receiver.offers)
      invariant old(receiver.mode).Undefined? ==> receiver.mode.Undefined? && receiver.offers == old(receiver.offers)
      decreases left
    {
      if left == 0 {
        label Before:
        receiver.Cancel();
        receiver.StillTracked@Before();
        return;
      }
      OtherConnections(receiver);
      var queueLength: nat, taken: bool :| true;
      label Asked:
      var r := receiver.TryUnpause(queueLength, taken);
      receiver.StillTracked@Asked();
      left := left - 1;
      if !r.Pause? {
        return r.Continue?, left;
      }
    }
  }

  /** One read of the socket. */
  method HandleChunk(receiver: NanoDataReceiver, data: seq<byte>) returns (r: ReceiveResult)
    requires receiver.Valid() && receiver.Tracked() && receiver.phase.Reading?
    modifies receiver, receiver.deserializer, receiver.deserializer.Shared(), receiver.handshake, receiver.handshake.cookies
    ensures receiver.Valid() && receiver.Tracked() && receiver.phase == PhaseAfter(r)
    ensures receiver.deserializer.received == old(receiver.deserializer.received) + data
    ensures receiver.polls == old(receiver.polls) && old(receiver.outcomes) <= receiver.outcomes
    ensures r.Abort? ==> RightlyAborted(receiver)
    ensures !r.Continue? ==> |receiver.outcomes| > |old(receiver.outcomes)|
    ensures r.Continue? ==> Unhandled(receiver) == []
    ensures receiver.mode == old(receiver.mode) && receiver.realtimeFrom == old(receiver.realtimeFrom)
    ensures receiver.mode.Undefined? ==> receiver.offers == old(receiver.offers) && receiver.refusals == old(receiver.refusals)
    ensures receiver.mode.Realtime? ==>
      && receiver.offers >= old(receiver.offers) && receiver.refusals == old(receiver.refusals) + (if r.Pause? then 1 else 0)
      && (r.Pause? ==> receiver.offers > old(receiver.offers) && !receiver.accepts(receiver.offers - 1))
  {
    hide NanoDataReceiver.Valid, NanoDataReceiver.Tracked, Drain, Deliverable, IsFatal, AllTaken;
    OtherConnections(receiver);
    r := receiver.Receive(data);
  }

  /** How a connection went since some moment: no new message was refused, if the queue took everything. */
  ghost predicate Went(receiver: NanoDataReceiver, offers: nat, refusals: nat)
    reads receiver
  {
    && offers <= receiver.offers && refusals <= receiver.refusals
    && (AllTaken(receiver.accepts, offers, receiver.offers) ==> receiver.refusals == refusals)
  }

  /** No complete frame is left, if one of the reads handled a message of a realtime connection or the handshake goes on. */
  ghost predicate CaughtUp(receiver: NanoDataReceiver)
    reads receiver, receiver.deserializer
  {
    receiver.mode.Undefined? || receiver.realtimeFrom < |receiver.outcomes| ==> Unhandled(receiver) == []
  }

  /** Reads chunks until there are none left, the receiver gives up or the channel is cancelled, which happens after so many
      reads and polls. A realtime connection in which no new message was refused has not waited and has handled every frame
      that is complete; so has a connection that became one on the way, as soon as it has handled a message since. */
  method Run(receiver: NanoDataReceiver, chunks: seq<seq<byte>>, patience: nat) returns (k: nat, left: nat)
    requires receiver.Valid() && receiver.Tracked() && receiver.phase.Reading?
    modifies receiver, receiver.deserializer, receiver.deserializer.Shared(), receiver.handshake, receiver.handshake.cookies
    ensures receiver.Valid() && receiver.Tracked() && !receiver.phase.Paused? && old(receiver.outcomes) <= receiver.outcomes
    ensures k <= |chunks| && receiver.deserializer.received == old(receiver.deserializer.received) + Flatten(chunks[..k])
    ensures left + k + receiver.polls == patience + old(receiver.polls)
    ensures receiver.phase.Reading? ==> k == |chunks|
    ensures receiver.phase.Aborted? ==> RightlyAborted(receiver)
    ensures receiver.phase.Cancelled? ==> left == 0
    ensures Went(receiver, old(receiver.offers), old(receiver.refusals))
    ensures old(receiver.mode).Realtime? ==> receiver.mode.Realtime? && receiver.realtimeFrom == old(receiver.realtimeFrom)
    ensures old(receiver.mode).Realtime? && receiver.refusals == old(receiver.refusals) && !receiver.phase.Aborted? ==>
      && receiver.polls == old(receiver.polls) && (receiver.phase.Cancelled? ==> k < |chunks|)
      && (k > 0 || old(Unhandled(receiver)) == [] ==> Unhandled(receiver) == [])
    ensures old(receiver.mode).Undefined? && old(Unhandled(receiver)) == [] ==>
      receiver.refusals == old(receiver.refusals) && receiver.phase.Reading? ==> CaughtUp(receiver)
  {
    hide NanoDataReceiver.Valid, NanoDataReceiver.Tracked, Unhandled, IsFatal;
    k, left := 0, patience;
    assert Flatten(chunks[..0]) == [];
    while k < |chunks|
      invariant receiver.Valid() && receiver.Tracked() && receiver.phase.Reading? && old(receiver.outcomes) <= receiver.outcomes
      invariant k <= |chunks| && receiver.deserializer.received == old(receiver.deserializer.received) + Flatten(chunks[..k])
      invariant left + k + receiver.polls == patience + old(receiver.polls)
      invariant Went(receiver, old(receiver.offers), old(receiver.refusals))
      invariant old(receiver.mode).Realtime? ==>
        && receiver.mode.Realtime? && receiver.realtimeFrom == old(receiver.realtimeFrom)
        && (receiver.refusals == old(receiver.refusals) ==> receiver.polls == old(receiver.polls))
        && (receiver.refusals == old(receiver.refusals) && (k > 0 || old(Unhandled(receiver)) == []) ==> Unhandled(receiver) == [])
      invariant old(receiver.mode).Undefined? && old(Unhandled(receiver)) == [] && receiver.refusals == old(receiver.refusals) ==>
        CaughtUp(receiver)
    {
      if left == 0 {
        label Before:
        receiver.Cancel();
        receiver.StillTracked@Before();
        return;
      }
      assert chunks[..k + 1][..k] == chunks[..k];
      var r := HandleChunk(receiver, chunks[k]);
      k, left := k + 1, left - 1;
      if r.Abort? {
        return;
      }
      if r.Pause? {
        var open;
        open, left := WaitWhilePaused(receiver, left);
        if !open {
          return;
        }
      }
    }
  }

  /** What is unhandled are the last frames of what was received. So nothing is, exactly if there are no more complete frames
      than outcomes. */
  lemma UnhandledIsTheRest(receiver: NanoDataReceiver)
    requires receiver.Valid()
    ensures
      var frames := Drain(receiver.deserializer.protocol, Decoder(receiver.deserializer.received, None)).0;
      && |receiver.outcomes| <= |frames| && Unhandled(receiver) == frames[|receiver.outcomes|..]
      && (Unhandled(receiver) == [] <==> |receiver.outcomes| == |frames|)
  {
    hide Drain, QueuedInOrder, Greeted, NanoDataReceiver.Valid, Deliver;
    receiver.ValidMeans();
    var d := receiver.deserializer;
    assert (d.emitted + Unhandled(receiver))[|d.emitted|..] == Unhandled(receiver);
  }

  // ----- What was sent, and what became of it -----

  /** A message that is queued: it is not obsolete, and the filter does not take it for a duplicate. */
  ghost predicate IsKept(v: Filter, p: Protocol, m: Message) {
    !IsObsolete(m) && !IsRepeated(v, FrameFor(p, m))
  }

  /** The messages that are queued, if the filter is as in `views` when they arrive. */
  ghost function Kept(views: seq<Filter>, p: Protocol, ms: seq<Message>): seq<Message>
    requires |views| == |ms|
  {
    if ms == [] then [] else
      var n := |ms| - 1;
      Kept(views[..n], p, ms[..n]) +
      if IsKept(views[n], p, ms[n]) then [WithDigest(ms[n], Digest(views[n], FrameFor(p, ms[n])))] else []
  }

  /** The messages that are not obsolete. */
  function Current(ms: seq<Message>): seq<Message> {
    if ms == [] then [] else
      var last := ms[|ms| - 1];
      Current(ms[..|ms| - 1]) + if IsObsolete(last) then [] else [last]
  }

  /** Nine kinds of messages are queued; the old ways of pulling and pushing blocks, and requests for telemetry, are not. */
  lemma LiveKinds(m: Message)
    ensures Current([m]) ==
      if m.Keepalive? || m.Publish? || m.AscPullAck? || m.AscPullReq? || m.ConfirmAck? || m.ConfirmReq? || m.FrontierReq?
         || m.NodeIdHandshake? || m.TelemetryAck? then [m] else []
  {
    assert [m][..0] == [] && Current([]) == [];
  }

  /** Without a filter every message that is not obsolete is queued, as it was sent. */
  lemma {:induction false} KeptWithoutFilter(views: seq<Filter>, p: Protocol, ms: seq<Message>)
    requires |views| == |ms| && AllWellFormed(ms) && forall v :: v in views ==> v.NoFilter?
    ensures Kept(views, p, ms) == Current(ms)
  {
    hide WellFormed, FrameFor, WithDigest;
    if ms != [] {
      var n := |ms| - 1;
      KeptWithoutFilter(views[..n], p, ms[..n]);
      assert views[n] in views;
      SameWithoutDigest(ms[n]);
    }
  }

  lemma SameWithoutDigest(m: Message)
    requires WellFormed(m)
    ensures WithDigest(m, 0) == m
  {
    hide NoZeroPair;
  }

  ghost predicate Arrived(outcomes: seq<Outcome>, views: seq<Filter>, p: Protocol, ms: seq<Message>) {
    |outcomes| == |views| == |ms| && forall i :: 0 <= i < |ms| ==> outcomes[i] == Expected(views[i], p, ms[i])
  }

  lemma {:induction false} DeliverableArrived(outcomes: seq<Outcome>, views: seq<Filter>, p: Protocol, ms: seq<Message>)
    requires Arrived(outcomes, views, p, ms) && forall v :: v in views ==> InTime(v)
    ensures Deliverable(outcomes) == Kept(views, p, ms)
  {
    hide Expected, InTime, IsKept, IsDeliverable;
    if ms != [] {
      var n := |ms| - 1;
      DeliverableArrived(outcomes[..n], views[..n], p, ms[..n]);
      assert views[n] in views;
      DeliverableExactlyWhenKept(views[n], p, ms[n]);
    }
  }

  lemma DeliverableExactlyWhenKept(v: Filter, p: Protocol, m: Message)
    requires InTime(v)
    ensures
      var o := Expected(v, p, m);
      && (IsDeliverable(o) <==> IsKept(v, p, m))
      && (IsDeliverable(o) ==> o.Received? && o.message == WithDigest(m, Digest(v, FrameFor(p, m))))
  {
    hide InTime, Seen, IsRepeated, FrameFor, Digest;
    SeenExactlyWhenRepeated(v, FrameFor(p, m));
  }

  /** The frames of the first part of a stream are the first frames of the stream. */
  lemma FirstFrames(p: Protocol, received: seq<byte>, whole: seq<byte>)
    requires received <= whole
    ensures Drain(p, Decoder(received, None)).0 <= Drain(p, Decoder(whole, None)).0
  {
    hide Drain;
    var later := whole[|received|..];
    assert whole == received + later;
    DrainLater(p, Decoder(received, None), later);
  }

  lemma FramesOfWire(p: Protocol, q: Protocol, ms: seq<Message>)
    requires Compatible(p, q) && AllWellFormed(ms)
    ensures Drain(q, Decoder(Wire(p, ms), None)) == (FramesFor(p, ms), IDLE)
  {
    hide Drain, Wire, Expected, FilterAfterAll, WellFormed, DeliverAll;
    var s := Wire(p, ms);
    assert Flatten([s]) == Flatten([s][..0]) + s == s;
    StreamRoundTrip(NoFilter, p, q, ms, [s]);
    ChunkingDoesNotMatter(q, [s]);
  }

  /** Whole messages behind whole messages are whole frames behind whole frames. */
  lemma FramesBehind(p: Protocol, q: Protocol, before: seq<byte>, ms: seq<Message>)
    requires Compatible(p, q) && AllWellFormed(ms) && Drain(q, Decoder(before, None)).1 == IDLE
    ensures Drain(q, Decoder(before + Wire(p, ms), None)) == (Drain(q, Decoder(before, None)).0 + FramesFor(p, ms), IDLE)
  {
    hide Drain, Wire, WellFormed;
    DrainLater(q, Decoder(before, None), Wire(p, ms));
    assert Push(IDLE, Wire(p, ms)) == Decoder(Wire(p, ms), None);
    FramesOfWire(p, q, ms);
  }

  /** The peer's messages arrive at the receiver behind `before`, which was made of whole frames: what was received so far is
      the beginning of what was sent. */
  ghost predicate Arriving(d: MessageDeserializer.MessageDeserializer, before: seq<byte>, p: Protocol, ms: seq<Message>)
    reads d
  {
    && Compatible(p, d.protocol) && AllWellFormed(ms) && Drain(d.protocol, Decoder(before, None)).1 == IDLE
    && before <= d.received <= before + Wire(p, ms)
  }

  /** The messages among the frames behind the first `n`. */
  lemma ArrivedBehind(outcomes: seq<Outcome>, views: seq<Filter>, emitted: seq<Frame>, unfiltered: bool, frames: seq<Frame>,
                      p: Protocol, ms: seq<Message>)
    requires Faithful(outcomes, views, emitted, unfiltered) && AllWellFormed(ms)
    requires emitted <= frames + FramesFor(p, ms) && |frames| <= |outcomes|
    ensures |outcomes| == |views| <= |frames| + |ms|
    ensures Arrived(outcomes[|frames|..], views[|frames|..], p, ms[..|outcomes| - |frames|])
  {
    hide WellFormed, Deliver, Expected, FrameFor;
    var first := |frames|;
    forall i | first <= i < |outcomes| ensures outcomes[i] == Expected(views[i], p, ms[i - first]) {
      assert emitted[i] == (frames + FramesFor(p, ms))[i] == FrameFor(p, ms[i - first]);
      DeliverWellFormed(views[i], p, ms[i - first]);
    }
  }

  /** The number of frames the bytes are made of. */
  ghost function FrameCount(q: Protocol, bytes: seq<byte>): nat {
    |Drain(q, Decoder(bytes, None)).0|
  }

  /** Every outcome behind `before` is that of its message. */
  lemma OutcomesOfWire(r: NanoDataReceiver, before: seq<byte>, p: Protocol, ms: seq<Message>)
    requires r.Valid() && Arriving(r.deserializer, before, p, ms) && FrameCount(r.deserializer.protocol, before) <= |r.outcomes|
    ensures
      var first := FrameCount(r.deserializer.protocol, before);
      && |r.outcomes| == |r.views| <= first + |ms|
      && Arrived(r.outcomes[first..], r.views[first..], p, ms[..|r.outcomes| - first])
      && (r.deserializer.received == before + Wire(p, ms) ==> Unhandled(r) == FramesFor(p, ms)[|r.outcomes| - first..])
  {
    hide Drain, Wire, WellFormed, QueuedInOrder, Greeted, Faithful, Arrived, NanoDataReceiver.Valid, Unhandled;
    UnhandledIsTheRest(r);
    r.ValidMeans();
    var d := r.deserializer;
    var frames := Drain(d.protocol, Decoder(before, None)).0;
    FramesBehind(p, d.protocol, before, ms);
    FirstFrames(d.protocol, d.received, before + Wire(p, ms));
    assert d.emitted <= Drain(d.protocol, Decoder(d.received, None)).0 <= frames + FramesFor(p, ms);
    ArrivedBehind(r.outcomes, r.views, d.emitted, d.networkFilter == null, frames, p, ms);
  }

  lemma {:induction false} DeliverableConcat(a: seq<Outcome>, b: seq<Outcome>)
    ensures Deliverable(a + b) == Deliverable(a) + Deliverable(b)
    decreases |b|
  {
    if b == [] {
      assert a + b == a;
    } else {
      var n := |b| - 1;
      assert a + b == a + b[..n] + [b[n]];
      assert (a + b)[..|a| + n] == a + b[..n];
      DeliverableConcat(a, b[..n]);
    }
  }

  lemma ViewsInTime(views: seq<Filter>, frames: seq<Frame>, now: Filter, others: nat -> nat)
    requires Snapshots(views, frames, now, others)
    ensures forall v :: v in views ==> InTime(v)
  {
    hide Follows, InTime, FilterAfter;
  }

  /** What the queue's side of the invariant says about messages: since the channel is a realtime channel. */
  lemma KeptInOrder(q: Queue, outcomes: seq<Outcome>, views: seq<Filter>, p: Protocol, ms: seq<Message>)
    requires QueuedInOrder(q, outcomes) && Arrived(outcomes, views, p, ms) && forall v :: v in views ==> InTime(v)
    ensures q.mode.Undefined? ==> q.enqueued == []
    ensures q.mode.Realtime? ==>
      && q.realtimeFrom <= |ms| && q.enqueued + q.due == Kept(views[q.realtimeFrom..], p, ms[q.realtimeFrom..])
      && |q.due| <= 1 && (q.phase.Reading? ==> q.due == [])
  {
    hide Deliverable, Kept, InTime, Expected;
    if q.mode.Realtime? {
      DeliverableArrived(outcomes[q.realtimeFrom..], views[q.realtimeFrom..], p, ms[q.realtimeFrom..]);
    }
  }

  /** The messages before the channel became a realtime channel: the handshake, which ends with the verified response, and
      duplicates the filter dropped. */
  ghost predicate HandshakeFirst(views: seq<Filter>, p: Protocol, ms: seq<Message>, response: Response)
    requires |views| == |ms|
  {
    && (forall i :: 0 <= i < |ms| ==> ms[i].NodeIdHandshake? || IsRepeated(views[i], FrameFor(p, ms[i])))
    && ms != [] && ms[|ms| - 1].NodeIdHandshake? && ms[|ms| - 1].handshake.response == Some(response)
  }

  lemma HandshakeCameFirst(q: Queue, outcomes: seq<Outcome>, proof: Option<HandshakeProcess.Evidence>, views: seq<Filter>, p: Protocol,
                           ms: seq<Message>)
    requires Greeted(q, outcomes, proof) && Arrived(outcomes, views, p, ms) && forall v :: v in views ==> InTime(v)
    requires q.mode.Realtime?
    ensures q.realtimeFrom <= |ms| && proof.Some?
    ensures HandshakeFirst(views[..q.realtimeFrom], p, ms[..q.realtimeFrom], proof.value.response)
  {
    hide InTime, Seen, IsRepeated, FrameFor, Digest;
    forall i | 0 <= i < q.realtimeFrom ensures ms[i].NodeIdHandshake? || IsRepeated(views[i], FrameFor(p, ms[i])) {
      assert views[i] in views && IsGreeting(outcomes[i]);
      SeenExactlyWhenRepeated(views[i], FrameFor(p, ms[i]));
    }
  }

  /** What a run over the peer's messages comes to, from the first one on. */
  lemma OutcomesFromStart(r: NanoDataReceiver, p: Protocol, ms: seq<Message>)
    requires r.Valid() && r.Tracked() && Arriving(r.deserializer, [], p, ms)
    ensures |r.outcomes| <= |ms| && Arrived(r.outcomes, r.views, p, ms[..|r.outcomes|])
    ensures forall v :: v in r.views ==> InTime(v)
    ensures r.deserializer.received == Wire(p, ms) ==> Unhandled(r) == FramesFor(p, ms)[|r.outcomes|..]
  {
    hide NanoDataReceiver.Valid, Snapshots, InTime, Wire, WellFormed, Unhandled, NextFrame, FramesFor, Expected;
    NothingFromNothing(r.deserializer.protocol);
    OutcomesOfWire(r, [], p, ms);
    assert [] + Wire(p, ms) == Wire(p, ms) && r.outcomes[0..] == r.outcomes && r.views[0..] == r.views;
    ViewsInTime(r.views, r.deserializer.emitted, r.deserializer.View(), r.others);
  }

  /** Whatever the chunks, the pauses, the queue's refusals and the other connections: the peer's messages are handled in the
      order they were sent, and one is dropped as a duplicate exactly if the filter remembered it, or an empty slot passed for
      it, when its turn came. Nothing is queued before the peer has proved its node ID; after that every handled message that
      is neither obsolete nor a duplicate is queued exactly once, in order, except that the last one may still be due while the
      channel pauses. */
  lemma ExactlyOnceInOrder(r: NanoDataReceiver, p: Protocol, ms: seq<Message>)
    requires r.Valid() && r.Tracked() && Arriving(r.deserializer, [], p, ms)
    ensures |r.outcomes| == |r.views| <= |ms|
    ensures forall i :: 0 <= i < |r.outcomes| ==>
      var f := FrameFor(p, ms[i]);
      r.outcomes[i] ==
      if IsRepeated(r.views[i], f) then Failed(if ms[i].ConfirmAck? then DuplicateConfirmAck else DuplicatePublish)
      else Received(WithDigest(ms[i], Digest(r.views[i], f)), p)
    ensures r.mode.Undefined? ==> r.enqueued == []
    ensures r.mode.Realtime? ==>
      && r.realtimeFrom <= |r.outcomes|
      && r.enqueued + r.due == Kept(r.views[r.realtimeFrom..], p, ms[r.realtimeFrom..|r.outcomes|])
      && |r.due| <= 1 && (r.phase.Reading? ==> r.due == [])
  {
    hide NanoDataReceiver.Valid, NanoDataReceiver.Tracked, Wire, WellFormed, Faithful, Greeted, QueuedInOrder, Kept, Seen, WithDigest,
         IsRepeated, FrameFor, Digest, InTime;
    OutcomesFromStart(r, p, ms);
    r.ValidMeans();
    var n := |r.outcomes|;
    KeptInOrder(r.QueueState(), r.outcomes, r.views, p, ms[..n]);
    if r.mode.Realtime? {
      assert ms[..n][r.realtimeFrom..] == ms[r.realtimeFrom..n];
    }
    forall i | 0 <= i < n ensures Seen(r.views[i], FrameFor(p, ms[i])) <==> IsRepeated(r.views[i], FrameFor(p, ms[i])) {
      assert r.views[i] in r.views;
      SeenExactlyWhenRepeated(r.views[i], FrameFor(p, ms[i]));
    }
  }

  /** The frames taken so far are those of the first messages. */
  lemma EmittedFromStart(r: NanoDataReceiver, p: Protocol, ms: seq<Message>)
    requires r.Valid() && Arriving(r.deserializer, [], p, ms)
    ensures |r.outcomes| == |r.views| <= |ms| && r.deserializer.emitted == FramesFor(p, ms[..|r.outcomes|])
  {
    hide NanoDataReceiver.Valid, Wire, WellFormed, QueuedInOrder, Greeted, Deliver, Drain, FrameFor;
    var d := r.deserializer;
    r.ValidMeans();
    FirstFrames(d.protocol, d.received, Wire(p, ms));
    FramesOfWire(p, d.protocol, ms);
    assert d.emitted <= FramesFor(p, ms);
  }

  /** If nobody else uses the filter, what becomes of each message is decided by the messages before it alone; one that comes
      twice in a row is dropped the second time, if the filter looks at its kind. */
  lemma AloneInOrder(r: NanoDataReceiver, p: Protocol, ms: seq<Message>, i: nat)
    requires r.Valid() && r.Tracked() && Arriving(r.deserializer, [], p, ms) && i < |r.outcomes|
    requires forall j :: 0 < j <= i ==> r.others(j) == 0
    ensures |r.outcomes| == |r.views| <= |ms|
    ensures r.outcomes[i] == Expected(FilterAfterAll(r.views[0], p, ms[..i]), p, ms[i])
    ensures i > 0 && ms[i] == ms[i - 1] && Consults(r.views[i], FrameFor(p, ms[i])) ==> IsDuplicate(r.outcomes[i])
  {
    hide NanoDataReceiver.Valid, Snapshots, Wire, WellFormed, InTime, FrameFor, FilterAfterAll, Seen, FilterAfter, WithDigest, Digest,
         Unhandled;
    EmittedFromStart(r, p, ms);
    OutcomesFromStart(r, p, ms);
    var sent := ms[..|r.outcomes|];
    SnapshotsAlone(r.views, r.deserializer.View(), r.others, p, sent, i);
    assert sent[..i] == ms[..i];
    if i > 0 && ms[i] == ms[i - 1] {
      SnapshotsAlone(r.views, r.deserializer.View(), r.others, p, sent, i - 1);
      assert sent[..i - 1] == ms[..i - 1] && ms[..i - 1] + [ms[i - 1]] == ms[..i];
      FilterAfterAllNext(r.views[0], p, ms[..i - 1], ms[i - 1]);
      RepeatedAtOnce(r.views[i - 1], FrameFor(p, ms[i]));
    }
  }

  /** A realtime connection started with the handshake: the last message before it brought a response over a cookie that was
      issued to the peer, and that response carries the node ID. */
  lemma RealtimeAfterHandshake(r: NanoDataReceiver, p: Protocol, ms: seq<Message>)
    requires r.Valid() && r.Tracked() && Arriving(r.deserializer, [], p, ms) && r.mode.Realtime?
    ensures r.realtimeFrom <= |r.outcomes| == |r.views| <= |ms|
    ensures r.proof.Some?
    ensures var e := r.proof.value;
      && e in r.handshake.accepted && r.handshake.Sound(e) && e.peer == r.peer && e.response.nodeId == r.nodeId
      && HandshakeFirst(r.views[..r.realtimeFrom], p, ms[..r.realtimeFrom], e.response)
  {
    hide Wire, WellFormed, Faithful, Greeted, QueuedInOrder, VersionNoted, RefusalsNoted, NanoDataReceiver.Tracked, Expected, InTime,
         HandshakeFirst, HandshakeProcess.ResponseValid, HandshakeProcess.GenesisMatches, Drain,
         MessageDeserializer.MessageDeserializer.Valid;
    OutcomesFromStart(r, p, ms);
    var n, from := |r.outcomes|, r.realtimeFrom;
    HandshakeCameFirst(r.QueueState(), r.outcomes, r.proof, r.views, p, ms[..n]);
    assert ms[..n][..from] == ms[..from];
  }

  lemma ExpectedIsNotFatal(v: Filter, p: Protocol, m: Message)
    ensures !IsFatal(Expected(v, p, m))
  {
    hide Seen, FrameFor, Digest, WithDigest;
  }

  lemma NoneIsFatal(outcomes: seq<Outcome>, first: nat, views: seq<Filter>, p: Protocol, ms: seq<Message>)
    requires first <= |outcomes| && Arrived(outcomes[first..], views, p, ms)
    requires forall i :: 0 <= i < first ==> !IsFatal(outcomes[i])
    ensures forall i :: 0 <= i < |outcomes| ==> !IsFatal(outcomes[i])
  {
    hide IsFatal, Expected;
    forall i | first <= i < |outcomes| ensures !IsFatal(outcomes[i]) {
      assert outcomes[i] == outcomes[first..][i - first] == Expected(views[i - first], p, ms[i - first]);
      ExpectedIsNotFatal(views[i - first], p, ms[i - first]);
    }
  }

  /** No well-formed message of a compatible peer ends a connection that is a realtime connection, if nothing before did. */
  lemma NeverRightlyAborted(r: NanoDataReceiver, before: seq<byte>, p: Protocol, ms: seq<Message>)
    requires r.Valid() && Arriving(r.deserializer, before, p, ms) && FrameCount(r.deserializer.protocol, before) <= |r.outcomes|
    requires forall i :: 0 <= i < FrameCount(r.deserializer.protocol, before) ==> !IsFatal(r.outcomes[i])
    ensures RightlyAborted(r) ==> r.mode.Undefined?
  {
    hide NanoDataReceiver.Valid, Arriving, IsFatal, Arrived, Unhandled, FramesFor, Wire, FrameCount;
    OutcomesOfWire(r, before, p, ms);
    var first := FrameCount(r.deserializer.protocol, before);
    NoneIsFatal(r.outcomes, first, r.views[first..], p, ms[..|r.outcomes| - first]);
  }

  lemma {:induction false} FlattenFirst(chunks: seq<seq<byte>>, k: nat)
    requires k <= |chunks|
    ensures Flatten(chunks[..k]) <= Flatten(chunks)
    decreases |chunks|
  {
    if k < |chunks| {
      assert chunks[..|chunks| - 1][..k] == chunks[..k];
      FlattenFirst(chunks[..|chunks| - 1], k);
    } else {
      assert chunks[..k] == chunks;
    }
  }

  /** When everything has arrived and nothing is unhandled, exactly the messages since the channel is a realtime channel that
      are neither obsolete nor duplicates have been queued, each once and in order. */
  lemma EverythingQueued(r: NanoDataReceiver, p: Protocol, ms: seq<Message>)
    requires r.Valid() && r.Tracked() && Arriving(r.deserializer, [], p, ms) && r.deserializer.received == Wire(p, ms)
    requires r.phase.Reading? && Unhandled(r) == []
    ensures |r.outcomes| == |r.views| == |ms| && r.realtimeFrom <= |ms|
    ensures r.enqueued == if r.mode.Realtime? then Kept(r.views[r.realtimeFrom..], p, ms[r.realtimeFrom..]) else []
  {
    hide NanoDataReceiver.Valid, NanoDataReceiver.Tracked, Arriving, Wire, Unhandled, Kept, Expected, IsRepeated, FrameFor, Digest,
         WithDigest, Deliverable, Faithful, Greeted;
    OutcomesFromStart(r, p, ms);
    ExactlyOnceInOrder(r, p, ms);
    r.ValidMeans();
    if r.mode.Realtime? {
      assert r.enqueued + [] == r.enqueued;
      assert ms[r.realtimeFrom..|ms|] == ms[r.realtimeFrom..];
    }
  }

  /** The queue takes everything from now on. */
  ghost predicate IsWilling(accepts: nat -> bool, from: nat) {
    forall j: nat :: from <= j ==> accepts(j)
  }

  lemma WillingTakesAll(accepts: nat -> bool, from: nat, to: nat)
    requires IsWilling(accepts, from)
    ensures AllTaken(accepts, from, to)
  {
  }

  /** A connection on which nothing was received yet has nothing to handle and is no realtime connection. */
  lemma AtStart(r: NanoDataReceiver)
    requires r.Valid() && r.deserializer.received == []
    ensures Unhandled(r) == [] && r.outcomes == [] && r.mode.Undefined?
  {
    hide NanoDataReceiver.Valid, QueuedInOrder, Deliver, IsGreeting, Carries, NextFrame;
    NothingFromNothing(r.deserializer.protocol);
    r.ValidMeans();
    assert r.deserializer.emitted + Unhandled(r) == [];
  }

  /** A whole connection to a peer that sends well-formed messages, in any chunks: once it is a realtime connection the receiver
      never ends it, and the channel is cancelled only when the patience is used up. If the loop has read everything and no
      complete frame is left, exactly the messages since the handshake that are neither obsolete nor duplicates have been
      queued. With a queue that takes everything no complete frame is left, unless the handshake was the last that was handled. */
  method Serve(receiver: NanoDataReceiver, ghost p: Protocol, ghost ms: seq<Message>, chunks: seq<seq<byte>>, patience: nat)
    returns (k: nat, left: nat)
    requires receiver.Valid() && receiver.Tracked() && receiver.phase.Reading? && receiver.deserializer.received == []
    requires Compatible(p, receiver.deserializer.protocol) && AllWellFormed(ms) && Flatten(chunks) == Wire(p, ms)
    modifies receiver, receiver.deserializer, receiver.deserializer.Shared(), receiver.handshake, receiver.handshake.cookies
    ensures receiver.Valid() && receiver.Tracked() && Arriving(receiver.deserializer, [], p, ms)
    ensures left + k + receiver.polls == patience + old(receiver.polls)
    ensures receiver.mode.Realtime? ==> !receiver.phase.Aborted?
    ensures receiver.phase.Cancelled? ==> left == 0
    ensures receiver.phase.Reading? ==> k == |chunks|
    ensures receiver.phase.Reading? && Unhandled(receiver) == [] ==>
      && |receiver.outcomes| == |receiver.views| == |ms| && receiver.realtimeFrom <= |ms|
      && receiver.enqueued ==
         if receiver.mode.Realtime? then Kept(receiver.views[receiver.realtimeFrom..], p, ms[receiver.realtimeFrom..]) else []
    ensures IsWilling(receiver.accepts, old(receiver.offers)) && receiver.phase.Reading? ==> CaughtUp(receiver)
  {
    hide NanoDataReceiver.Valid, NanoDataReceiver.Tracked, Wire, WellFormed, Unhandled, RightlyAborted, Flatten, Kept, NextFrame,
         IsWilling, CaughtUp, AllTaken;
    AtStart(receiver);
    k, left := Run(receiver, chunks, patience);
    FlattenFirst(chunks, k);
    NothingFromNothing(receiver.deserializer.protocol);
    assert [] + Flatten(chunks[..k]) == Flatten(chunks[..k]) && [] + Wire(p, ms) == Wire(p, ms);
    assert Arriving(receiver.deserializer, [], p, ms);
    NeverRightlyAborted(receiver, [], p, ms);
    if receiver.phase.Reading? && Unhandled(receiver) == [] {
      assert chunks[..k] == chunks;
      EverythingQueued(receiver, p, ms);
    }
    if IsWilling(receiver.accepts, old(receiver.offers)) {
      WillingTakesAll(receiver.accepts, old(receiver.offers), receiver.offers);
    }
  }
}
