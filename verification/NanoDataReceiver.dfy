/** The receiving side of a connection: messages are queued once the peer has proved who it is, each exactly once and in
    order, while the queue may refuse a message any number of times. */
module NanoDataReceiver {
  import opened Options
  import opened Bytes
  import opened Messages
  import opened MessageHeader
  import opened Frames
  import opened MessageStream
  import SynCookies
  import MessageDeserializer
  import HandshakeProcess

  datatype Mode = Undefined | Realtime
  datatype ReceiveResult = Continue | Abort | Pause

  /** What the read loop does with the receiver: it goes on, waits, or has ended, because the receiver gave up or because
      the channel was cancelled. */
  datatype Phase = Reading | Paused | Aborted | Cancelled

  function PhaseAfter(r: ReceiveResult): Phase {
    match r
    case Continue => Reading
    case Abort => Aborted
    case Pause => Paused
  }

  predicate IsDuplicate(o: Outcome) {
    o.Failed? && (o.error.DuplicatePublish? || o.error.DuplicateConfirmAck?)
  }

  /** What ends a connection that is a realtime connection already. */
  predicate IsFatal(o: Outcome) {
    o.Failed? && !IsDuplicate(o)
  }

  predicate IsDeliverable(o: Outcome) {
    o.Received? && !IsObsolete(o.message)
  }

  /** The messages among the outcomes that are to be queued. */
  function Deliverable(outcomes: seq<Outcome>): seq<Message> {
    if outcomes == [] then [] else
      var last := outcomes[|outcomes| - 1];
      Deliverable(outcomes[..|outcomes| - 1]) + if IsDeliverable(last) then [last.message] else []
  }

  lemma DeliverableNext(outcomes: seq<Outcome>, from: nat, o: Outcome)
    requires from <= |outcomes|
    ensures Deliverable((outcomes + [o])[from..]) == Deliverable(outcomes[from..]) + if IsDeliverable(o) then [o.message] else []
  {
    assert (outcomes + [o])[from..] == outcomes[from..] + [o];
    assert (outcomes[from..] + [o])[..|outcomes| - from] == outcomes[from..];
  }

  /** Every outcome is that of its frame. */
  ghost predicate Faithful(outcomes: seq<Outcome>, views: seq<Filter>, frames: seq<Frame>, unfiltered: bool) {
    && |views| == |outcomes| == |frames|
    && (forall i :: 0 <= i < |outcomes| ==> outcomes[i] == Deliver(views[i], frames[i]))
    && (unfiltered ==> forall v :: v in views ==> v.NoFilter?)
  }

  lemma FaithfulNext(outcomes: seq<Outcome>, views: seq<Filter>, frames: seq<Frame>, unfiltered: bool, v: Filter, f: Frame)
    requires Faithful(outcomes, views, frames, unfiltered) && (unfiltered ==> v.NoFilter?)
    ensures Faithful(outcomes + [Deliver(v, f)], views + [v], frames + [f], unfiltered)
  {
    hide Deliver;
  }

  /** How far queueing has come: the messages the queue accepted since the channel became a realtime channel, and the
      one it refused last if that is still due. */
  datatype Queue = Queue(
    mode: Mode, phase: Phase, realtimeFrom: nat, enqueued: seq<Message>, due: seq<Message>, retryEnqueue: Option<Message>)

  /** Nothing is queued before the channel is a realtime channel. From then on exactly the deliverable messages are,
      in order, except that the last one may still be due. */
  ghost predicate QueuedInOrder(q: Queue, outcomes: seq<Outcome>) {
    && q.realtimeFrom <= |outcomes|
    && (q.mode.Undefined? ==> q.enqueued == [] && q.due == [])
    && (q.mode.Realtime? ==> q.enqueued + q.due == Deliverable(outcomes[q.realtimeFrom..]))
    && (q.due != [] ==> !q.phase.Reading? && q.retryEnqueue.Some? && q.due == [q.retryEnqueue.value])
    && (q.mode.Realtime? && q.phase.Paused? ==> q.due != [])
  }

  lemma QueuedNext(q: Queue, q': Queue, outcomes: seq<Outcome>, o: Outcome)
    requires QueuedInOrder(q, outcomes) && q.phase.Reading? && q'.mode == q.mode && q'.realtimeFrom == q.realtimeFrom
    requires q.mode.Undefined? ==> q'.enqueued == q.enqueued && q'.due == []
    requires q.mode.Realtime? ==> q'.enqueued + q'.due == q.enqueued + if IsDeliverable(o) then [o.message] else []
    requires q'.due != [] ==> !q'.phase.Reading? && q'.retryEnqueue.Some? && q'.due == [q'.retryEnqueue.value]
    requires q'.mode.Realtime? && q'.phase.Paused? ==> q'.due != []
    ensures QueuedInOrder(q', outcomes + [o])
  {
    hide Deliverable, IsDeliverable;
    DeliverableNext(outcomes, q.realtimeFrom, o);
    assert q.enqueued + [] == q.enqueued;
  }

  /** The message that was refused is taken in the end. */
  lemma QueuedAgain(q: Queue, q': Queue, outcomes: seq<Outcome>)
    requires QueuedInOrder(q, outcomes) && q.mode.Realtime? && q.phase.Paused?
    ensures q.retryEnqueue.Some? && q.due == [q.retryEnqueue.value]
    ensures q' == q.(phase := Reading, enqueued := q.enqueued + q.due, due := []) ==> QueuedInOrder(q', outcomes)
  {
    hide Deliverable;
    assert q.enqueued + q.due + [] == q.enqueued + q.due;
  }

  /** A message that was refused stays noted after it was queued, so the debug assertion that none is noted when one is
      refused fails from the second refusal on. */
  ghost predicate RefusalsNoted(retryEnqueue: Option<Message>, refusals: nat, failedAssertions: nat) {
    && (retryEnqueue.Some? <==> refusals > 0)
    && failedAssertions == if refusals == 0 then 0 else refusals - 1
  }

  /** The queue takes everything it is offered from one offer to another. */
  ghost predicate AllTaken(accepts: nat -> bool, from: nat, to: nat) {
    forall k :: from <= k < to ==> accepts(k)
  }

  /** The protocol version is that of the first message that could be read. */
  ghost predicate VersionNoted(outcomes: seq<Outcome>, none: bool, version: U8) {
    if none then forall o :: o in outcomes ==> o.Failed?
    else exists i :: 0 <= i < |outcomes| && IsFirst(outcomes, i) && outcomes[i].protocol.versionUsing == version
  }

  ghost predicate IsFirst(outcomes: seq<Outcome>, i: nat)
    requires i < |outcomes|
  {
    outcomes[i].Received? && forall j :: 0 <= j < i ==> outcomes[j].Failed?
  }

  lemma VersionNext(outcomes: seq<Outcome>, none: bool, version: U8, o: Outcome)
    requires VersionNoted(outcomes, none, version)
    ensures VersionNoted(outcomes + [o], none && o.Failed?, if none && o.Received? then o.protocol.versionUsing else version)
  {
    if none {
      assert o.Received? ==> IsFirst(outcomes + [o], |outcomes|);
    } else {
      var i :| 0 <= i < |outcomes| && IsFirst(outcomes, i) && outcomes[i].protocol.versionUsing == version;
      assert IsFirst(outcomes + [o], i);
    }
  }

  /** A message of the handshake, or a duplicate the filter dropped. */
  predicate IsGreeting(o: Outcome) {
    IsDuplicate(o) || (o.Received? && o.message.NodeIdHandshake?)
  }

  /** The message brought the response that was verified. */
  predicate Carries(o: Outcome, proof: Option<HandshakeProcess.Evidence>) {
    && proof.Some? && o.Received? && o.message.NodeIdHandshake?
    && o.message.handshake.response == Some(proof.value.response)
  }

  /** Before the channel became a realtime channel there was nothing but the handshake, and the last message of it brought
      the verified response. Nothing that ends a connection was read as long as the receiver has not given up. */
  ghost predicate Greeted(q: Queue, outcomes: seq<Outcome>, proof: Option<HandshakeProcess.Evidence>) {
    var n := if q.mode.Realtime? then q.realtimeFrom else |outcomes|;
    && n <= |outcomes|
    && (q.mode.Realtime? || !q.phase.Aborted? ==> forall i :: 0 <= i < n ==> IsGreeting(outcomes[i]))
    && (q.mode.Realtime? || q.phase.Paused? ==> n > 0 && Carries(outcomes[n - 1], proof))
    && (!q.phase.Aborted? ==> forall o :: o in outcomes ==> !IsFatal(o))
  }

  lemma GreetedNext(q: Queue, q': Queue, outcomes: seq<Outcome>, o: Outcome, proof: Option<HandshakeProcess.Evidence>,
                    proof': Option<HandshakeProcess.Evidence>)
    requires Greeted(q, outcomes, proof) && q.phase.Reading? && q'.mode == q.mode && q'.realtimeFrom == q.realtimeFrom
    requires q'.mode.Realtime? ==> proof' == proof
    requires q'.mode.Undefined? ==> (q'.phase.Aborted? || IsGreeting(o)) && (q'.phase.Paused? ==> Carries(o, proof'))
    requires IsFatal(o) ==> q'.phase.Aborted?
    ensures Greeted(q', outcomes + [o], proof')
  {
    hide IsGreeting, Carries, IsFatal;
  }

  /** Waiting ends: in a realtime channel, or by becoming one. */
  lemma GreetedLater(q: Queue, q': Queue, outcomes: seq<Outcome>, proof: Option<HandshakeProcess.Evidence>)
    requires Greeted(q, outcomes, proof) && !q.phase.Aborted? && (q'.phase.Paused? ==> q.phase.Paused?)
    requires
      || (q'.mode == q.mode && q'.realtimeFrom == q.realtimeFrom)
      || (q.mode.Undefined? && q.phase.Paused? && q'.mode.Realtime? && q'.realtimeFrom == |outcomes|)
    ensures Greeted(q', outcomes, proof)
  {
    hide IsGreeting, Carries, IsFatal;
  }

  /** The peer signed a cookie that was issued to it. */
  ghost predicate Authenticated(proof: Option<HandshakeProcess.Evidence>, accepted: seq<HandshakeProcess.Evidence>, peer: Peer,
                                nodeId: HandshakeProcess.NodeId)
  {
    proof.Some? && proof.value in accepted && proof.value.peer == peer && proof.value.response.nodeId == nodeId
  }

  class NanoDataReceiver {
    const deserializer: MessageDeserializer.MessageDeserializer
    const handshake: HandshakeProcess.HandshakeProcess
    const peer: Peer
    /** The answers of the queue, one for each time it is offered a message. */
    const accepts: nat -> bool
    /** The number of calls others make to the filter, before each frame. */
    const others: nat -> nat
    var turns: nat
    var offers: nat
    var mode: Mode
    var firstMessage: bool
    var protocolVersion: U8
    var nodeId: HandshakeProcess.NodeId
    var retryEnqueue: Option<Message>
    ghost var phase: Phase
    /** The filter as it was at each outcome. */
    ghost var views: seq<Filter>
    ghost var outcomes: seq<Outcome>
    /** The number of outcomes before the channel became a realtime channel. */
    ghost var realtimeFrom: nat
    /** The messages the queue accepted, and the one it refused last if that is still due. */
    ghost var enqueued: seq<Message>
    ghost var due: seq<Message>
    ghost var proof: Option<HandshakeProcess.Evidence>
    /** How many messages the queue refused when they were new, and how often the debug assertion failed. */
    ghost var refusals: nat
    ghost var failedAssertions: nat
    /** How often the read loop asked whether to go on. */
    ghost var polls: nat
    /** The replies that were sent. */
    ghost var replies: seq<Handshake>

    ghost predicate Valid()
      reads this, deserializer, handshake, handshake.cookies
    {
      && deserializer.Valid() && Faithful(outcomes, views, deserializer.emitted, deserializer.networkFilter == null)
      && turns == |views| && Orderly()
    }

    /** What holds of the outcomes, whatever frames they come from. */
    ghost predicate Orderly()
      reads this`mode, this`phase, this`realtimeFrom, this`enqueued, this`due, this`retryEnqueue, this`outcomes, this`refusals,
            this`failedAssertions, this`firstMessage, this`protocolVersion, this`nodeId, this`proof, this`replies
      reads handshake, handshake.cookies
    {
      && handshake.Valid() && QueuedInOrder(QueueState(), outcomes)
      && RefusalsNoted(retryEnqueue, refusals, failedAssertions)
      && VersionNoted(outcomes, firstMessage, protocolVersion)
      && Greeted(QueueState(), outcomes, proof)
      && (mode.Realtime? || phase.Paused? ==> PeerAuthenticated())
      && |replies| <= handshake.answered
    }

    lemma ValidMeans()
      requires Valid()
      ensures deserializer.Valid() && Faithful(outcomes, views, deserializer.emitted, deserializer.networkFilter == null)
      ensures QueuedInOrder(QueueState(), outcomes) && Greeted(QueueState(), outcomes, proof)
    {
      hide Faithful, QueuedInOrder, Greeted, VersionNoted, Authenticated, RefusalsNoted, HandshakeProcess.HandshakeProcess.Valid,
           MessageDeserializer.MessageDeserializer.Valid;
    }

    /** The views are what the shared filter was at each frame. */
    ghost predicate Tracked()
      reads this, deserializer, deserializer.Shared()
    {
      deserializer.FilterValid() && Snapshots(views, deserializer.emitted, deserializer.View(), others)
    }

    ghost function QueueState(): Queue
      reads this`mode, this`phase, this`realtimeFrom, this`enqueued, this`due, this`retryEnqueue
    {
      Queue(mode, phase, realtimeFrom, enqueued, due, retryEnqueue)
    }

    ghost predicate PeerAuthenticated()
      reads this`proof, this`nodeId, handshake
    {
      Authenticated(proof, handshake.accepted, peer, nodeId)
    }

    constructor (deserializer: MessageDeserializer.MessageDeserializer, handshake: HandshakeProcess.HandshakeProcess, peer: Peer,
                 accepts: nat -> bool, others: nat -> nat)
      requires deserializer.Valid() && deserializer.FilterValid() && handshake.Valid()
      requires deserializer.received == [] && deserializer.emitted == []
      ensures Valid() && Tracked() && mode.Undefined? && phase.Reading? && outcomes == []
      ensures this.deserializer == deserializer && this.handshake == handshake && this.peer == peer
      ensures this.accepts == accepts && this.others == others
    {
      this.deserializer, this.handshake, this.peer := deserializer, handshake, peer;
      this.accepts, this.others := accepts, others;
      offers, turns, refusals, failedAssertions, polls := 0, 0, 0, 0, 0;
      mode, firstMessage, protocolVersion, nodeId, retryEnqueue := Undefined, true, 0, Zero32(), None;
      phase, views, outcomes, realtimeFrom, enqueued, due, proof, replies := Reading, [], [], 0, [], [], None, [];
    }

    /** The side that opened the connection asks first. A query that cannot be made or sent closes the channel. */
    method EnsureHandshake(outbound: bool, random: SynCookies.Cookie, now: nat, sent: bool)
      requires Valid() && phase.Reading?
      modifies this`phase, handshake.cookies
      ensures Valid()
      ensures phase == if outbound && !(sent && handshake.CanQuery(old(handshake.cookies.cookies), peer)) then Aborted else Reading
      ensures handshake.cookies.used == old(handshake.cookies.used)
    {
      hide Deliverable, Faithful, VersionNoted, Authenticated, RefusalsNoted,
           HandshakeProcess.HandshakeProcess.Valid, MessageDeserializer.MessageDeserializer.Valid;
      if outbound {
        var query := handshake.InitiateHandshake(peer, random, now);
        if query.None? || !sent {
          phase := Aborted;
        }
      }
    }

    /** The queue takes the message or refuses it. */
    method TryEnqueue(m: Message) returns (ok: bool)
      modifies this`enqueued, this`offers
      ensures ok == accepts(old(offers)) && offers == old(offers) + 1
      ensures enqueued == old(enqueued) + if ok then [m] else []
    {
      ok := accepts(offers);
      offers := offers + 1;
      if ok {
        enqueued := enqueued + [m];
      }
    }

    /** At a refusal the debug assertion that no message is noted holds exactly if no earlier one was refused. */
    method QueueRealtime(m: Message) returns (r: ReceiveResult)
      requires due == [] && RefusalsNoted(retryEnqueue, refusals, failedAssertions)
      modifies this`enqueued, this`due, this`retryEnqueue, this`offers, this`refusals, this`failedAssertions
      ensures r == (if accepts(old(offers)) then Continue else Pause) && offers == old(offers) + 1
      ensures enqueued + due == old(enqueued) + [m] && due == if r.Continue? then [] else [m]
      ensures retryEnqueue == if r.Pause? then Some(m) else old(retryEnqueue)
      ensures RefusalsNoted(retryEnqueue, refusals, failedAssertions)
      ensures refusals == old(refusals) + if r.Pause? then 1 else 0
      ensures r.Pause? ==> (old(retryEnqueue).None? <==> old(refusals) == 0)
    {
      var ok := TryEnqueue(m);
      if ok {
        r := Continue;
      } else {
        failedAssertions := failedAssertions + if retryEnqueue.None? then 0 else 1;
        refusals := refusals + 1;
        retryEnqueue := Some(m);
        due := [m];
        r := Pause;
      }
    }

    method ProcessRealtime(m: Message) returns (r: ReceiveResult)
      requires due == [] && RefusalsNoted(retryEnqueue, refusals, failedAssertions)
      modifies this`enqueued, this`due, this`retryEnqueue, this`offers, this`refusals, this`failedAssertions
      ensures RefusalsNoted(retryEnqueue, refusals, failedAssertions)
      ensures enqueued + due == old(enqueued) + if IsObsolete(m) then [] else [m]
      ensures r == (if IsObsolete(m) || accepts(old(offers)) then Continue else Pause)
      ensures offers == old(offers) + (if IsObsolete(m) then 0 else 1) && refusals == old(refusals) + if r.Pause? then 1 else 0
      ensures if r.Pause? then retryEnqueue.Some? && due == [retryEnqueue.value] else due == []
    {
      if IsObsolete(m) {
        return Continue;
      }
      r := QueueRealtime(m);
    }

    /** A message that is no handshake, a handshake that is refused and a reply that cannot be sent end the connection. The
        channel pauses exactly when the peer's response was verified. */
    method ProcessHandshake(m: Message, random: SynCookies.Cookie, salt: Bytes32, now: nat, others: nat, sent: bool)
      returns (r: ReceiveResult, ghost seen: HandshakeProcess.Table)
      requires handshake.Valid() && |replies| <= handshake.answered
      modifies this`nodeId, this`proof, this`replies, handshake, handshake.cookies
      ensures handshake.Valid() && (r.Pause? ==> PeerAuthenticated() && m.NodeIdHandshake? &&
                                                 m.handshake.response == Some(proof.value.response))
      ensures |replies| <= handshake.answered
      ensures !m.NodeIdHandshake? ==> r.Abort?
      ensures m.NodeIdHandshake? && others == 0 ==>
        seen == handshake.Asked(old(handshake.cookies.cookies), old(handshake.handshakeReceived), m.handshake, peer, random, now)
      ensures m.NodeIdHandshake? ==>
        var verdict := handshake.Expected(
          old(handshake.cookies.cookies), seen, old(handshake.handshakeReceived), m.handshake, peer, random, salt);
        if verdict.Denied? || (verdict.reply.Some? && !sent) then r.Abort? && replies == old(replies)
        else
          && replies == old(replies) + (if verdict.reply.Some? then [verdict.reply.value] else [])
          && r == (if verdict.nodeId.Some? then Pause else Continue)
          && nodeId == if verdict.nodeId.Some? then verdict.nodeId.value else old(nodeId)
    {
      hide HandshakeProcess.HandshakeProcess.Expected, HandshakeProcess.HandshakeProcess.TableAfter,
           HandshakeProcess.HandshakeProcess.Asked;
      ghost var before, table, received := |handshake.accepted|, handshake.cookies.cookies, handshake.handshakeReceived;
      seen := table;
      if !m.NodeIdHandshake? {
        return Abort, seen;
      }
      var verdict;
      verdict, seen := handshake.ProcessHandshake(m.handshake, peer, random, salt, now, others);
      if verdict.Denied? {
        return Abort, seen;
      }
      if verdict.reply.Some? {
        ReplyMeansAnswered(table, seen, received, m.handshake, random, salt);
        if !sent {
          return Abort, seen;
        }
        replies := replies + [verdict.reply.value];
      }
      if verdict.nodeId.None? {
        return Continue, seen;
      }
      nodeId := verdict.nodeId.value;
      proof := Some(handshake.accepted[before]);
      r := Pause;
    }

    lemma ReplyMeansAnswered(table: HandshakeProcess.Table, seen: HandshakeProcess.Table, received: bool, h: Handshake,
                             random: SynCookies.Cookie, salt: Bytes32)
      ensures
        var verdict := handshake.Expected(table, seen, received, h, peer, random, salt);
        verdict.Passed? && verdict.reply.Some? ==> h.query.Some? && !received
    {
    }

    method ProcessMessage(m: Message) returns (r: ReceiveResult)
      requires handshake.Valid() && due == [] && |replies| <= handshake.answered
      requires RefusalsNoted(retryEnqueue, refusals, failedAssertions)
      modifies this`enqueued, this`due, this`retryEnqueue, this`offers, this`refusals, this`failedAssertions
      modifies this`nodeId, this`proof, this`replies, handshake, handshake.cookies
      ensures handshake.Valid() && |replies| <= handshake.answered && RefusalsNoted(retryEnqueue, refusals, failedAssertions)
      ensures if mode.Undefined? then enqueued == old(enqueued) && due == [] && offers == old(offers) && refusals == old(refusals)
              else
                && enqueued + due == old(enqueued) + (if IsObsolete(m) then [] else [m])
                && r == (if IsObsolete(m) || accepts(old(offers)) then Continue else Pause)
                && offers == old(offers) + (if IsObsolete(m) then 0 else 1)
                && refusals == old(refusals) + if r.Pause? then 1 else 0
      ensures due != [] <==> mode.Realtime? && r.Pause?
      ensures due != [] ==> retryEnqueue.Some? && due == [retryEnqueue.value]
      ensures mode.Undefined? && !m.NodeIdHandshake? ==> r.Abort?
      ensures mode.Undefined? && r.Pause? ==>
        PeerAuthenticated() && m.NodeIdHandshake? && m.handshake.response == Some(proof.value.response)
      ensures mode.Realtime? ==> nodeId == old(nodeId) && proof == old(proof) && handshake.accepted == old(handshake.accepted)
    {
      if mode.Undefined? {
        var random: SynCookies.Cookie, salt: Bytes32, now: nat, others: nat, sent: bool :| true;
        ghost var seen;
        r, seen := ProcessHandshake(m, random, salt, now, others, sent);
      } else {
        r := ProcessRealtime(m);
      }
    }

    /** In a realtime channel exactly the deliverable messages are offered, and exactly a refusal makes the channel pause. */
    ghost predicate Offered(before: nat, o: Outcome, r: ReceiveResult)
      reads this
    {
      && offers == before + (if IsDeliverable(o) then 1 else 0)
      && (r.Pause? <==> IsDeliverable(o) && !accepts(before))
    }

    /** A message could be read. */
    method HandleMessage(o: Outcome) returns (r: ReceiveResult)
      requires handshake.Valid() && QueuedInOrder(QueueState(), outcomes) && phase.Reading? && o.Received?
      requires mode.Realtime? ==> PeerAuthenticated()
      requires |replies| <= handshake.answered && RefusalsNoted(retryEnqueue, refusals, failedAssertions)
      modifies this`enqueued, this`due, this`retryEnqueue, this`offers, this`refusals, this`failedAssertions
      modifies this`nodeId, this`proof, this`replies, this`phase, handshake, handshake.cookies
      ensures handshake.Valid() && QueuedInOrder(QueueState(), outcomes + [o])
      ensures phase == PhaseAfter(r) && |replies| <= handshake.answered && RefusalsNoted(retryEnqueue, refusals, failedAssertions)
      ensures if mode.Realtime? then Offered(old(offers), o, r) && refusals == old(refusals) + (if r.Pause? then 1 else 0)
              else offers == old(offers) && refusals == old(refusals)
      ensures if mode.Realtime? then !r.Abort? else o.message.NodeIdHandshake? || r.Abort?
      ensures mode.Realtime? || phase.Paused? ==> PeerAuthenticated()
      ensures if mode.Realtime? then proof == old(proof) else r.Pause? ==> Carries(o, proof)
    {
      assert due == [];
      hide Deliverable, IsObsolete, Authenticated, RefusalsNoted, QueuedInOrder,
           HandshakeProcess.HandshakeProcess.Valid, MessageDeserializer.MessageDeserializer.Valid;
      ghost var q := QueueState();
      r := ProcessMessage(o.message);
      phase := PhaseAfter(r);
      QueuedNext(q, QueueState(), outcomes, o);
    }

    /** One turn of the receive loop: an outcome is taken in. */
    method Handle(o: Outcome) returns (r: ReceiveResult)
      requires handshake.Valid() && QueuedInOrder(QueueState(), outcomes) && phase.Reading?
      requires mode.Realtime? ==> PeerAuthenticated()
      requires |replies| <= handshake.answered && RefusalsNoted(retryEnqueue, refusals, failedAssertions)
      modifies this`firstMessage, this`protocolVersion, this`enqueued, this`due, this`retryEnqueue
      modifies this`offers, this`refusals, this`failedAssertions
      modifies this`nodeId, this`proof, this`replies
      modifies this`phase, this`outcomes, handshake, handshake.cookies
      ensures handshake.Valid() && QueuedInOrder(QueueState(), outcomes)
      ensures outcomes == old(outcomes) + [o] && phase == PhaseAfter(r) && |replies| <= handshake.answered
      ensures RefusalsNoted(retryEnqueue, refusals, failedAssertions)
      ensures if mode.Realtime? then Offered(old(offers), o, r) && refusals == old(refusals) + (if r.Pause? then 1 else 0)
              else offers == old(offers) && refusals == old(refusals)
      ensures o.Failed? ==> r == if IsDuplicate(o) then Continue else Abort
      ensures if mode.Realtime? then r.Abort? <==> IsFatal(o) else r.Abort? || IsGreeting(o)
      ensures IsFatal(o) ==> r.Abort?
      ensures o.Received? ==> if mode.Realtime? then !r.Abort? else o.message.NodeIdHandshake? || r.Abort?
      ensures mode.Realtime? || phase.Paused? ==> PeerAuthenticated()
      ensures if mode.Realtime? then proof == old(proof) else r.Pause? ==> Carries(o, proof)
      ensures if o.Received? && old(firstMessage) then !firstMessage && protocolVersion == o.protocol.versionUsing
              else firstMessage == old(firstMessage) && protocolVersion == old(protocolVersion)
    {
      hide Deliverable, IsObsolete, Authenticated, RefusalsNoted,
           HandshakeProcess.HandshakeProcess.Valid, MessageDeserializer.MessageDeserializer.Valid;
      if o.Received? {
        hide QueuedInOrder;
        if firstMessage {
          protocolVersion, firstMessage := o.protocol.versionUsing, false;
        }
        r := HandleMessage(o);
      } else {
        r := if IsDuplicate(o) then Continue else Abort;
        ghost var q := QueueState();
        phase := PhaseAfter(r);
        assert enqueued + [] == enqueued;
        QueuedNext(q, QueueState(), outcomes, o);
      }
      outcomes := outcomes + [o];
    }

    /** An outcome is taken in, and everything about the outcomes still holds. */
    method TakeIn(o: Outcome) returns (r: ReceiveResult)
      requires Orderly() && phase.Reading?
      modifies this`firstMessage, this`protocolVersion, this`enqueued, this`due, this`retryEnqueue
      modifies this`offers, this`refusals, this`failedAssertions
      modifies this`nodeId, this`proof, this`replies
      modifies this`phase, this`outcomes, handshake, handshake.cookies
      ensures Orderly() && outcomes == old(outcomes) + [o] && phase == PhaseAfter(r)
      ensures r.Abort? ==> mode.Undefined? || IsFatal(o)
      ensures if mode.Realtime? then Offered(old(offers), o, r) && refusals == old(refusals) + (if r.Pause? then 1 else 0)
              else offers == old(offers) && refusals == old(refusals)
    {
      hide QueuedInOrder, Greeted, VersionNoted, Authenticated, RefusalsNoted, Carries, IsFatal, IsGreeting, IsDuplicate, Offered,
           HandshakeProcess.HandshakeProcess.Valid;
      ghost var earlier, q, known := outcomes, QueueState(), proof;
      VersionNext(outcomes, firstMessage, protocolVersion, o);
      r := Handle(o);
      GreetedNext(q, QueueState(), earlier, o, known, proof);
    }

    /** Takes the next complete frame, if there is one, and notes what the filter was. Others may use the filter before. */
    method TakeFrame() returns (o: Option<Outcome>)
      requires deserializer.Valid() && Tracked() && turns == |views|
      requires Faithful(outcomes, views, deserializer.emitted, deserializer.networkFilter == null)
      modifies this`views, this`turns, deserializer, deserializer.Shared()
      ensures deserializer.Valid() && Tracked() && deserializer.received == old(deserializer.received)
      ensures var (frame, next) := NextFrame(deserializer.protocol, old(deserializer.State()));
        && deserializer.State() == next && (o.None? <==> frame.None?)
        && deserializer.emitted == old(deserializer.emitted) + if frame.None? then [] else [frame.value]
      ensures old(views) <= views && turns == |views|
      ensures Faithful(outcomes + if o.None? then [] else [o.value], views, deserializer.emitted,
                       deserializer.networkFilter == null)
    {
      hide NextFrame, Deliver, FilterAfter, Faithful, Snapshots, Follows, InTime, MessageDeserializer.MessageDeserializer.Valid;
      ghost var emitted, earlier := deserializer.emitted, deserializer.View();
      deserializer.OtherConnections(others(turns));
      ghost var view := deserializer.View();
      SnapshotsLater(views, emitted, earlier, view, others);
      o := deserializer.TryDeserialize();
      if o.None? {
        assert outcomes + [] == outcomes && emitted + [] == emitted;
        return;
      }
      ghost var frame := deserializer.emitted[|emitted|];
      FaithfulNext(outcomes, views, emitted, deserializer.networkFilter == null, view, frame);
      SnapshotsNext(views, emitted, view, frame, others);
      views, turns := views + [view], turns + 1;
    }

    /** One turn of the receive loop, or nothing if no frame is complete. */
    method Turn() returns (r: Option<ReceiveResult>)
      requires Valid() && phase.Reading? && Tracked()
      modifies this, deserializer, deserializer.Shared(), handshake, handshake.cookies
      ensures Valid() && Tracked() && deserializer.received == old(deserializer.received)
      ensures mode == old(mode) && realtimeFrom == old(realtimeFrom) && polls == old(polls)
      ensures r.None? <==> NextFrame(deserializer.protocol, old(deserializer.State())).0.None?
      ensures r.None? ==> phase.Reading? && outcomes == old(outcomes) && deserializer.emitted == old(deserializer.emitted)
      ensures r.Some? ==> phase == PhaseAfter(r.value) && |outcomes| == |old(outcomes)| + 1 && old(outcomes) < outcomes
      ensures r == Some(Abort) ==> mode.Undefined? || IsFatal(outcomes[|outcomes| - 1])
      ensures if mode.Undefined? || r.None? then offers == old(offers) && refusals == old(refusals)
              else
                && Offered(old(offers), outcomes[|outcomes| - 1], r.value)
                && refusals == old(refusals) + if r.value.Pause? then 1 else 0
      ensures deserializer.State() == NextFrame(deserializer.protocol, old(deserializer.State())).1
    {
      hide NextFrame, Faithful, Orderly, Tracked, IsFatal, Offered, MessageDeserializer.MessageDeserializer.Valid;
      var o := TakeFrame();
      if o.None? {
        assert outcomes + [] == outcomes;
        return None;
      }
      label Taken:
      var result := TakeIn(o.value);
      StillTracked@Taken();
      r := Some(result);
    }

    twostate lemma StillTracked()
      requires old(Tracked()) && views == old(views) && unchanged(deserializer.Shared())
      requires deserializer.emitted == old(deserializer.emitted)
      ensures Tracked()
    {
      hide Snapshots;
    }

    /** Takes in a chunk. The frames in it are handled until one of them makes the receiver stop; if none does, no complete
        frame is left. */
    method Receive(data: seq<byte>) returns (r: ReceiveResult)
      requires Valid() && phase.Reading? && Tracked()
      modifies this, deserializer, deserializer.Shared(), handshake, handshake.cookies
      ensures Valid() && Tracked() && phase == PhaseAfter(r)
      ensures deserializer.received == old(deserializer.received) + data
      ensures mode == old(mode) && realtimeFrom == old(realtimeFrom) && polls == old(polls) && old(outcomes) <= outcomes
      ensures !r.Continue? ==> |outcomes| > |old(outcomes)|
      ensures r.Abort? ==> mode.Undefined? || IsFatal(outcomes[|outcomes| - 1])
      ensures r.Continue? ==> Drain(deserializer.protocol, deserializer.State()) == ([], deserializer.State())
      ensures mode.Undefined? ==> offers == old(offers) && refusals == old(refusals)
      ensures mode.Realtime? ==>
        && offers == old(offers) + |Deliverable(outcomes[|old(outcomes)|..])|
        && refusals == old(refusals) + (if r.Pause? then 1 else 0)
        && (r.Pause? ==> IsDeliverable(outcomes[|outcomes| - 1]))
        && if r.Pause? then offers > old(offers) && !accepts(offers - 1) && AllTaken(accepts, old(offers), offers - 1)
           else AllTaken(accepts, old(offers), offers)
    {
      hide NextFrame, Faithful, Orderly, Tracked, MessageDeserializer.MessageDeserializer.Valid;
      deserializer.Push(data);
      StillTracked();
      assert outcomes[|outcomes|..] == [];
      while true
        invariant Valid() && phase.Reading? && Tracked()
        invariant deserializer.received == old(deserializer.received) + data
        invariant mode == old(mode) && realtimeFrom == old(realtimeFrom) && polls == old(polls) && old(outcomes) <= outcomes
        invariant mode.Undefined? ==> offers == old(offers) && refusals == old(refusals)
        invariant mode.Realtime? ==>
          && offers == old(offers) + |Deliverable(outcomes[|old(outcomes)|..])| && refusals == old(refusals)
          && AllTaken(accepts, old(offers), offers)
        decreases Size(deserializer.State())
      {
        ghost var before, earlier := deserializer.State(), outcomes;
        var result := Turn();
        if result.Some? {
          assert outcomes == earlier + [outcomes[|earlier|]];
          DeliverableNext(earlier, |old(outcomes)|, outcomes[|earlier|]);
        }
        if result.None? {
          DrainTwice(deserializer.protocol, before);
          return Continue;
        }
        if !result.value.Continue? {
          return result.value;
        }
      }
    }

    /** The network takes the channel as a realtime channel or refuses it. */
    method ToRealtimeConnection(ok: bool)
      requires Orderly() && phase.Paused? && mode.Undefined?
      modifies this`mode, this`realtimeFrom, this`phase
      ensures Orderly() && phase == (if ok then Reading else Aborted)
      ensures if ok then mode.Realtime? && realtimeFrom == |outcomes| else mode.Undefined? && realtimeFrom == old(realtimeFrom)
    {
      hide Greeted, VersionNoted, Authenticated, RefusalsNoted, HandshakeProcess.HandshakeProcess.Valid;
      ghost var q := QueueState();
      if ok {
        assert outcomes[|outcomes|..] == [];
        mode, realtimeFrom, phase := Realtime, |outcomes|, Reading;
      } else {
        phase := Aborted;
      }
      GreetedLater(q, QueueState(), outcomes, proof);
    }

    /** The message that was refused is offered once more. */
    method OfferAgain() returns (r: ReceiveResult)
      requires Orderly() && phase.Paused? && mode.Realtime?
      modifies this`phase, this`enqueued, this`offers, this`due
      ensures Orderly() && phase == PhaseAfter(r) && old(enqueued) <= enqueued && enqueued + due == old(enqueued + due)
      ensures r == (if accepts(old(offers)) then Continue else Pause) && offers == old(offers) + 1
    {
      hide QueuedInOrder, Greeted, VersionNoted, Authenticated, RefusalsNoted, HandshakeProcess.HandshakeProcess.Valid;
      ghost var q := QueueState();
      QueuedAgain(q, q.(phase := Reading, enqueued := q.enqueued + q.due, due := []), outcomes);
      var ok := TryEnqueue(retryEnqueue.value);
      if ok {
        due, phase := [], Reading;
        GreetedLater(q, QueueState(), outcomes, proof);
        assert enqueued + [] == enqueued;
        return Continue;
      }
      assert enqueued == old(enqueued);
      r := Pause;
    }

    /** Called again and again while paused. During the handshake the send queue must drain first and the network must take the
        channel; afterwards the message that was refused is offered again. */
    method TryUnpause(queueLength: nat, taken: bool) returns (r: ReceiveResult)
      requires Valid() && phase.Paused?
      modifies this`mode, this`realtimeFrom, this`phase, this`enqueued, this`offers, this`due, this`polls
      ensures Valid() && phase == PhaseAfter(r) && polls == old(polls) + 1
      ensures outcomes == old(outcomes) && old(enqueued) <= enqueued && enqueued + due == old(enqueued + due)
      ensures old(mode).Realtime? ==>
        && mode.Realtime? && realtimeFrom == old(realtimeFrom)
        && r == (if accepts(old(offers)) then Continue else Pause) && offers == old(offers) + 1
      ensures old(mode).Undefined? ==>
        && offers == old(offers) && r == (if queueLength > 0 then Pause else if taken then Continue else Abort)
        && mode == (if r.Continue? then Realtime else Undefined)
        && realtimeFrom == if r.Continue? then |outcomes| else old(realtimeFrom)
    {
      hide Faithful, Orderly, MessageDeserializer.MessageDeserializer.Valid;
      polls := polls + 1;
      if mode.Realtime? {
        r := OfferAgain();
      } else if queueLength > 0 {
        r := Pause;
      } else {
        ToRealtimeConnection(taken);
        r := if taken then Continue else Abort;
      }
    }

    /** The channel is cancelled; what was queued stays queued. */
    method Cancel()
      requires Valid() && !phase.Aborted?
      modifies this`phase
      ensures Valid() && phase.Cancelled?
    {
      hide Deliverable, Faithful, Greeted, VersionNoted, Authenticated, RefusalsNoted,
           HandshakeProcess.HandshakeProcess.Valid, MessageDeserializer.MessageDeserializer.Valid;
      ghost var q := QueueState();
      phase := Cancelled;
      GreetedLater(q, QueueState(), outcomes, proof);
    }
  }
}
