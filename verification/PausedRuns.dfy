/** Realtime connections that have handled everything so far: what the next messages come to, what a refusal in the middle of
    a chunk leaves behind, and what a second refusal does to the debug assertion. */
module PausedRuns {
  import opened Options
  import opened Bytes
  import opened Messages
  import opened MessageHeader
  import opened WireRoundTrip
  import opened Frames
  import opened MessageStream
  import HandshakeProcess
  import opened NanoDataReceiver
  import opened ReadLoop

  /** A realtime connection that has handled everything it received. */
  ghost predicate UpToDate(r: NanoDataReceiver)
    reads r, r.deserializer, r.handshake, r.handshake.cookies
  {
    && r.Valid() && r.mode.Realtime? && r.phase.Reading?
    && Drain(r.deserializer.protocol, r.deserializer.State()) == ([], IDLE)
  }

  lemma UpToDateMeans(r: NanoDataReceiver)
    requires UpToDate(r)
    ensures Drain(r.deserializer.protocol, Decoder(r.deserializer.received, None)).1 == IDLE
    ensures FrameCount(r.deserializer.protocol, r.deserializer.received) == |r.outcomes| && Unhandled(r) == []
    ensures forall i :: 0 <= i < |r.outcomes| ==> !IsFatal(r.outcomes[i])
  {
    hide NanoDataReceiver.Valid, Faithful, QueuedInOrder, IsFatal, IsGreeting, Carries, Drain;
    UnhandledIsTheRest(r);
    r.ValidMeans();
  }

  /** Messages a peer sends to a receiver that understands them. */
  ghost predicate Sent(r: NanoDataReceiver, p: Protocol, ms: seq<Message>) {
    Compatible(p, r.deserializer.protocol) && AllWellFormed(ms)
  }

  lemma ArrivingBehind(r: NanoDataReceiver, before: seq<byte>, p: Protocol, ms: seq<Message>)
    requires r.Valid() && Arriving(r.deserializer, before, p, ms) && r.deserializer.received == before + Wire(p, ms)
    ensures Drain(r.deserializer.protocol, r.deserializer.State()).1 == IDLE
  {
    hide NanoDataReceiver.Valid, Faithful, QueuedInOrder, Greeted, Drain, Wire, WellFormed;
    r.ValidMeans();
    FramesBehind(p, r.deserializer.protocol, before, ms);
  }

  /** `n` of the messages were handled between two offers: the messages that are kept are offered, up to the first one that is
      refused. */
  ghost predicate HandledUpTo(views: seq<Filter>, p: Protocol, ms: seq<Message>, n: nat, res: ReceiveResult, accepts: nat -> bool,
                              from: nat, to: nat)
  {
    && |views| == n <= |ms| && to == from + |Kept(views, p, ms[..n])|
    && if res.Pause? then n > 0 && IsKept(views[n - 1], p, ms[n - 1]) && !accepts(to - 1) && AllTaken(accepts, from, to - 1)
       else res.Continue? && n == |ms| && AllTaken(accepts, from, to)
  }

  lemma EndedAt(outcomes: seq<Outcome>, views: seq<Filter>, p: Protocol, ms: seq<Message>, n: nat, res: ReceiveResult,
                accepts: nat -> bool, from: nat, to: nat, left: seq<Frame>)
    requires n <= |ms| && Arrived(outcomes, views, p, ms[..n]) && left == FramesFor(p, ms)[n..]
    requires forall v :: v in views ==> InTime(v)
    requires to == from + |Deliverable(outcomes)|
    requires !res.Continue? ==> n > 0
    requires res.Abort? ==> IsFatal(outcomes[n - 1])
    requires res.Continue? ==> left == []
    requires if res.Pause? then
               IsDeliverable(outcomes[n - 1]) && to > from && !accepts(to - 1) && AllTaken(accepts, from, to - 1)
             else AllTaken(accepts, from, to)
    ensures HandledUpTo(views, p, ms, n, res, accepts, from, to)
  {
    hide AllTaken, Deliverable, IsDeliverable, FrameFor, Kept, IsKept, InTime, IsFatal, Expected;
    DeliverableArrived(outcomes, views, p, ms[..n]);
    if n > 0 {
      assert views[n - 1] in views;
      DeliverableExactlyWhenKept(views[n - 1], p, ms[n - 1]);
      ExpectedIsNotFatal(views[n - 1], p, ms[n - 1]);
    }
  }

  /** A chunk of whole messages is handled up to the first message the queue refuses. Frames stay unhandled exactly if that is
      not the last message of the chunk. */
  method ReceiveMessages(r: NanoDataReceiver, ghost p: Protocol, ghost ms: seq<Message>, data: seq<byte>)
    returns (res: ReceiveResult, ghost n: nat)
    requires UpToDate(r) && r.Tracked() && Sent(r, p, ms) && data == Wire(p, ms)
    modifies r, r.deserializer, r.deserializer.Shared(), r.handshake, r.handshake.cookies
    ensures r.Valid() && r.Tracked() && r.phase == PhaseAfter(res) && r.mode.Realtime? && r.realtimeFrom == old(r.realtimeFrom)
    ensures old(r.outcomes) <= r.outcomes && |r.outcomes| == |r.views| == |old(r.outcomes)| + n && n <= |ms|
    ensures Arrived(r.outcomes[|old(r.outcomes)|..], r.views[|old(r.outcomes)|..], p, ms[..n])
    ensures HandledUpTo(r.views[|old(r.outcomes)|..], p, ms, n, res, r.accepts, old(r.offers), r.offers)
    ensures Drain(r.deserializer.protocol, r.deserializer.State()) == (FramesFor(p, ms)[n..], IDLE)
    ensures r.refusals == old(r.refusals) + if res.Pause? then 1 else 0
  {
    hide Drain, Wire, WellFormed, IsFatal, FramesFor, Arrived, NanoDataReceiver.Valid, NanoDataReceiver.Tracked, Deliverable, AllTaken,
         HandledUpTo, IsDeliverable;
    ghost var before, first := r.deserializer.received, |r.outcomes|;
    UpToDateMeans(r);
    res := r.Receive(data);
    OutcomesOfWire(r, before, p, ms);
    ArrivingBehind(r, before, p, ms);
    n := |r.outcomes| - first;
    ViewsOf(r);
    EndedAt(r.outcomes[first..], r.views[first..], p, ms, n, res, r.accepts, old(r.offers), r.offers, Unhandled(r));
  }

  lemma ViewsOf(r: NanoDataReceiver)
    requires r.Tracked()
    ensures forall v :: v in r.views ==> InTime(v)
  {
    hide Snapshots, InTime;
    ViewsInTime(r.views, r.deserializer.emitted, r.deserializer.View(), r.others);
  }

  /** What was queued since a moment when nothing was due. */
  lemma QueuedSince(q: Queue, q': Queue, outcomes: seq<Outcome>, later: seq<Outcome>)
    requires QueuedInOrder(q, outcomes) && QueuedInOrder(q', outcomes + later) && q.mode.Realtime? && q'.mode.Realtime?
    requires q'.realtimeFrom == q.realtimeFrom && q.phase.Reading?
    ensures q'.enqueued + q'.due == q.enqueued + Deliverable(later)
    ensures q'.phase.Reading? ==> q'.enqueued == q.enqueued + Deliverable(later)
  {
    hide Deliverable;
    assert (outcomes + later)[q.realtimeFrom..] == outcomes[q.realtimeFrom..] + later;
    DeliverableConcat(outcomes[q.realtimeFrom..], later);
    assert q.enqueued + [] == q.enqueued && q'.enqueued + [] == q'.enqueued;
  }

  /** A realtime connection that is up to date reads the next messages, in any chunks. The receiver never ends it. The messages
      that are handled and kept are queued, in order, except that the last one may still be due. If no new message is
      refused, which is certain if the queue takes everything, all of them are handled and kept ones are queued, unless the
      channel is cancelled first; it is not, if the patience is not shorter than the list of chunks. */
  method ServeOn(r: NanoDataReceiver, ghost p: Protocol, ghost ms: seq<Message>, chunks: seq<seq<byte>>, patience: nat)
    returns (k: nat, left: nat)
    requires UpToDate(r) && r.Tracked() && Sent(r, p, ms) && Flatten(chunks) == Wire(p, ms)
    modifies r, r.deserializer, r.deserializer.Shared(), r.handshake, r.handshake.cookies
    ensures r.Valid() && r.Tracked() && r.mode.Realtime? && !r.phase.Aborted?
    ensures left + k + r.polls == patience + old(r.polls) && (r.phase.Cancelled? ==> left == 0)
    ensures |old(r.outcomes)| <= |r.outcomes| == |r.views| <= |old(r.outcomes)| + |ms|
    ensures var first := |old(r.outcomes)|;
      r.enqueued + r.due == old(r.enqueued) + Kept(r.views[first..], p, ms[..|r.outcomes| - first])
    ensures r.refusals == old(r.refusals) && patience >= |chunks| ==>
      && r.phase.Reading? && k == |chunks| && |r.outcomes| == |old(r.outcomes)| + |ms| && Unhandled(r) == []
      && r.enqueued == old(r.enqueued) + Kept(r.views[|old(r.outcomes)|..], p, ms)
    ensures IsWilling(r.accepts, old(r.offers)) ==> r.refusals == old(r.refusals)
  {
    hide NanoDataReceiver.Valid, NanoDataReceiver.Tracked, Wire, WellFormed, Unhandled, RightlyAborted, Flatten, Kept, Drain, AllTaken,
         IsWilling, IsFatal, QueuedInOrder, Faithful, Greeted, Deliverable, FrameFor, Expected;
    ghost var before, outcomes, q := r.deserializer.received, r.outcomes, r.QueueState();
    UpToDateMeans(r);
    r.ValidMeans();
    k, left := Run(r, chunks, patience);
    FlattenFirst(chunks, k);
    assert Arriving(r.deserializer, before, p, ms);
    NeverRightlyAborted(r, before, p, ms);
    OutcomesOfWire(r, before, p, ms);
    ViewsOf(r);
    ghost var later := r.outcomes[|outcomes|..];
    DeliverableArrived(later, r.views[|outcomes|..], p, ms[..|later|]);
    r.ValidMeans();
    assert r.outcomes == outcomes + later;
    QueuedSince(q, r.QueueState(), outcomes, later);
    if IsWilling(r.accepts, old(r.offers)) {
      WillingTakesAll(r.accepts, old(r.offers), r.offers);
    }
    if r.refusals == old(r.refusals) && patience >= |chunks| {
      assert chunks[..k] == chunks;
      assert |FramesFor(p, ms)[|later|..]| == |ms| - |later|;
      assert ms[..|ms|] == ms;
    }
  }

  /** A message that is queued whatever the filter remembers: it is not obsolete and not of a kind the filter looks at, or there
      is no filter. */
  ghost predicate IsCertain(r: NanoDataReceiver, m: Message) {
    !IsObsolete(m) && (r.deserializer.networkFilter == null || !IsFiltered(TypeOf(m)))
  }

  lemma CertainIsKept(r: NanoDataReceiver, v: Filter, p: Protocol, m: Message)
    requires IsCertain(r, m) && WellFormed(m) && (r.deserializer.networkFilter == null ==> v.NoFilter?)
    ensures IsKept(v, p, m) && Expected(v, p, m) == Received(m, p)
  {
    hide NoZeroPair, ExtensionsOf, PayloadBytes;
  }

  lemma FirstIsKept(r: NanoDataReceiver, first: nat, p: Protocol, m: Message)
    requires r.Valid() && first < |r.views| && IsCertain(r, m) && WellFormed(m)
    ensures IsKept(r.views[first], p, m) && Expected(r.views[first], p, m) == Received(m, p)
  {
    hide NanoDataReceiver.Valid, Deliver, QueuedInOrder, Greeted, WellFormed, IsCertain, IsKept, Expected;
    r.ValidMeans();
    assert r.views[first] in r.views;
    CertainIsKept(r, r.views[first], p, m);
  }

  /** A realtime connection that reads has queued everything there was to queue. */
  lemma NothingDue(r: NanoDataReceiver)
    requires r.Valid() && r.mode.Realtime? && r.phase.Reading?
    ensures r.realtimeFrom <= |r.outcomes| && r.enqueued == Deliverable(r.outcomes[r.realtimeFrom..])
  {
    hide NanoDataReceiver.Valid, Faithful, Deliverable, Greeted;
    r.ValidMeans();
    assert r.enqueued + [] == r.enqueued;
  }

  lemma {:induction false} KeptFirst(views: seq<Filter>, p: Protocol, ms: seq<Message>)
    requires |views| == |ms| > 0 && IsKept(views[0], p, ms[0])
    ensures |Kept(views, p, ms)| >= 1
  {
    hide IsKept, WithDigest, Digest, FrameFor;
    if |ms| > 1 {
      KeptFirst(views[..|ms| - 1], p, ms[..|ms| - 1]);
    }
  }

  /** The first message is refused: the receiver pauses right behind it. */
  lemma StoppedAtFirst(views: seq<Filter>, p: Protocol, ms: seq<Message>, n: nat, res: ReceiveResult, accepts: nat -> bool, from: nat,
                       to: nat)
    requires HandledUpTo(views, p, ms, n, res, accepts, from, to) && ms != [] && !accepts(from)
    requires n > 0 ==> IsKept(views[0], p, ms[0])
    ensures res.Pause? && n == 1 && to == from + 1
  {
    hide IsKept, WithDigest, Digest, FrameFor;
    if n > 0 {
      KeptFirst(views, p, ms[..n]);
      assert ms[..n][..n - 1] == ms[..n - 1];
    }
    if n > 1 {
      KeptFirst(views[..n - 1], p, ms[..n - 1]);
    } else if n == 1 {
      assert Kept(views[..0], p, ms[..0]) == [];
    }
  }

  /** The queue refuses the first message of a chunk: the receiver pauses behind it, and what is behind it stays unhandled. */
  method RefuseFirst(r: NanoDataReceiver, ghost p: Protocol, ghost m: Message, ghost rest: seq<Message>, data: seq<byte>)
    requires UpToDate(r) && r.Tracked() && Sent(r, p, [m] + rest) && data == Wire(p, [m] + rest)
    requires IsCertain(r, m) && !r.accepts(r.offers)
    modifies r, r.deserializer, r.deserializer.Shared(), r.handshake, r.handshake.cookies
    ensures r.Valid() && r.Tracked() && r.mode.Realtime? && r.realtimeFrom == old(r.realtimeFrom) && r.phase.Paused?
    ensures r.outcomes == old(r.outcomes) + [Received(m, p)]
    ensures r.offers == old(r.offers) + 1 && r.refusals == old(r.refusals) + 1
    ensures Drain(r.deserializer.protocol, r.deserializer.State()) == (FramesFor(p, rest), IDLE)
  {
    hide Drain, Wire, WellFormed, NanoDataReceiver.Valid, NanoDataReceiver.Tracked, IsKept, Expected, IsCertain, HandledUpTo;
    ghost var before, ms := r.outcomes, [m] + rest;
    var res, n := ReceiveMessages(r, p, ms, data);
    if n > 0 {
      FirstIsKept(r, |before|, p, m);
    }
    StoppedAtFirst(r.views[|before|..], p, ms, n, res, r.accepts, old(r.offers), r.offers);
    assert FramesFor(p, ms)[1..] == FramesFor(p, rest);
    assert r.outcomes == before + [Received(m, p)];
  }

  /** The queue refuses the first message of a chunk and takes it when it is offered again: the receiver reads on, but the
      messages behind it are complete and unhandled until more data arrives. */
  method FramesBehindPause(r: NanoDataReceiver, ghost p: Protocol, ghost m: Message, ghost rest: seq<Message>, data: seq<byte>)
    requires UpToDate(r) && r.Tracked() && Sent(r, p, [m] + rest) && data == Wire(p, [m] + rest)
    requires IsCertain(r, m) && !r.accepts(r.offers) && r.accepts(r.offers + 1)
    modifies r, r.deserializer, r.deserializer.Shared(), r.handshake, r.handshake.cookies
    ensures r.Valid() && r.mode.Realtime? && r.phase.Reading? && r.outcomes == old(r.outcomes) + [Received(m, p)]
    ensures r.enqueued == old(r.enqueued) + [m] && Unhandled(r) == FramesFor(p, rest)
  {
    hide Drain, Wire, WellFormed, NanoDataReceiver.Valid, NanoDataReceiver.Tracked, FramesFor, Deliverable;
    ghost var before := r.outcomes;
    NothingDue(r);
    RefuseFirst(r, p, m, rest, data);
    var next := r.TryUnpause(0, true);
    NothingDue(r);
    DeliverableNext(before, r.realtimeFrom, Received(m, p));
  }

  /** Two messages that are refused at first: at the second refusal the debug assertion fails. */
  method TwoRefusals(r: NanoDataReceiver, ghost p: Protocol, ghost a: Message, ghost b: Message, dataA: seq<byte>, dataB: seq<byte>)
    requires UpToDate(r) && r.Tracked() && Sent(r, p, [a, b]) && dataA == Wire(p, [a]) && dataB == Wire(p, [b])
    requires IsCertain(r, a) && IsCertain(r, b)
    requires r.refusals == 0 && !r.accepts(r.offers) && r.accepts(r.offers + 1) && !r.accepts(r.offers + 2)
    modifies r, r.deserializer, r.deserializer.Shared(), r.handshake, r.handshake.cookies
    ensures r.Valid() && r.failedAssertions == 1 && old(r.failedAssertions) == 0
  {
    hide Drain, Wire, WellFormed, NanoDataReceiver.Valid, NanoDataReceiver.Tracked, IsCertain;
    assert [a] + [] == [a] && [b] + [] == [b] && FramesFor(p, []) == [];
    FailuresAfter(r);
    RefuseFirst(r, p, a, [], dataA);
    label Waiting:
    var next := r.TryUnpause(0, true);
    r.StillTracked@Waiting();
    RefuseFirst(r, p, b, [], dataB);
    FailuresAfter(r);
  }

  /** Over every run: the debug assertion has never failed exactly if at most one message was refused. */
  lemma FailuresAfter(r: NanoDataReceiver)
    requires r.Valid()
    ensures r.failedAssertions == 0 <==> r.refusals <= 1
    ensures r.refusals > 0 ==> r.failedAssertions == r.refusals - 1
  {
    hide Drain, Faithful, QueuedInOrder, Greeted, VersionNoted, Authenticated, HandshakeProcess.HandshakeProcess.Valid;
  }
}
