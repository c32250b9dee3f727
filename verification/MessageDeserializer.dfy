/** The deserializer of one connection: bytes go in as they arrive, messages come out. */
module MessageDeserializer {
  import opened Options
  import opened Bytes
  import opened Messages
  import opened Payloads
  import opened MessageHeader
  import opened Frames
  import opened MessageStream
  import NetworkFilter

  class MessageDeserializer {
    var buffer: seq<byte>
    var currentHeader: Option<Header>
    const networkFilter: NetworkFilter.NetworkFilter?
    const protocol: Protocol
    ghost var received: seq<byte>
    ghost var emitted: seq<Frame>

    ghost function State(): Decoder
      reads this
    {
      Decoder(buffer, currentHeader)
    }

    /** The filter is shared with other connections. */
    ghost function Shared(): set<object> {
      if networkFilter == null then {} else {networkFilter, networkFilter.items}
    }

    ghost predicate FilterValid()
      reads Shared()
    {
      networkFilter != null ==> networkFilter.Valid()
    }

    ghost function View(): Filter
      reads Shared()
      requires FilterValid()
    {
      if networkFilter == null then NoFilter else
        FilterView(networkFilter.hasher, networkFilter.items.Length, networkFilter.ageCutoff, networkFilter.currentEpoch,
                   networkFilter.history)
    }

    /** What others do with the filter in between. */
    method OtherConnections(calls: nat)
      requires FilterValid()
      modifies Shared()
      ensures FilterValid() && InTime(View()) && Follows(old(View()), View(), calls == 0)
    {
      if networkFilter != null {
        networkFilter.OtherConnections(calls);
      }
    }

    /** Whatever calls were made so far, in whatever order: the frames handed out, followed by those still in the buffer,
        are the frames of the bytes received. */
    ghost predicate Valid()
      reads this
    {
      var (left, last) := Drain(protocol, State());
      Drain(protocol, Decoder(received, None)) == (emitted + left, last)
    }

    constructor (protocol: Protocol, networkFilter: NetworkFilter.NetworkFilter?)
      ensures Valid() && received == [] && emitted == [] && State() == IDLE
      ensures this.protocol == protocol && this.networkFilter == networkFilter
    {
      this.protocol, this.networkFilter, buffer, currentHeader, received, emitted := protocol, networkFilter, [], None, [], [];
      new;
      assert emitted + Drain(protocol, IDLE).0 == Drain(protocol, IDLE).0;
    }

    method Push(data: seq<byte>)
      requires Valid()
      modifies this
      ensures Valid() && received == old(received) + data && emitted == old(emitted)
      ensures State() == Frames.Push(old(State()), data)
    {
      hide NextFrame;
      DrainLater(protocol, Decoder(received, None), data);
      DrainLater(protocol, State(), data);
      ghost var (left, last) := Drain(protocol, State());
      ghost var more := Drain(protocol, Frames.Push(last, data)).0;
      assert emitted + left + more == emitted + (left + more);
      buffer := buffer + data;
      received := received + data;
    }

    /** Hands out the next frame, decoded. Nothing comes out exactly when no frame is complete. */
    method TryDeserialize() returns (r: Option<Outcome>)
      requires Valid() && FilterValid()
      modifies this, Shared()
      ensures Valid() && FilterValid() && received == old(received)
      ensures var (frame, next) := NextFrame(protocol, old(State()));
        && State() == next
        && if frame.None? then r.None? && emitted == old(emitted) && View() == old(View())
           else
             && emitted == old(emitted) + [frame.value]
             && r == Some(Deliver(old(View()), frame.value))
             && View() == FilterAfter(old(View()), frame.value)
    {
      hide Drain, DecodeMessage, ReadHeader, Rejection, PayloadLength;
      ghost var (frame, next) := NextFrame(protocol, State());
      Progress(frame, next);
      if currentHeader.Some? {
        r := TryDeserializePayload(currentHeader.value);
      } else {
        r := DeserializeHeaderAndPayload();
      }
      assert emitted + [] == emitted;
      emitted := emitted + if frame.Some? then [frame.value] else [];
    }

    /** Taking a frame off the buffer keeps the invariant. */
    ghost method Progress(frame: Option<Frame>, next: Decoder)
      requires Valid() && NextFrame(protocol, State()) == (frame, next)
      ensures
        var (left, last) := Drain(protocol, next);
        Drain(protocol, Decoder(received, None)) == (emitted + (if frame.None? then [] else [frame.value]) + left, last)
    {
      hide NextFrame;
      var (left, last) := Drain(protocol, next);
      if frame.None? {
        DrainTwice(protocol, State());
        assert emitted + [] + left == emitted + left;
      } else {
        assert emitted + [frame.value] + left == emitted + ([frame.value] + left);
      }
    }

    method DeserializeHeaderAndPayload() returns (r: Option<Outcome>)
      requires FilterValid() && currentHeader.None?
      modifies this`buffer, this`currentHeader, Shared()
      ensures FilterValid()
      ensures var (frame, next) := NextFrame(protocol, old(State())); State() == next && Handled(old(View()), frame, r)
    {
      hide DecodeMessage, ReadHeader, Rejection, PayloadLength;
      if |buffer| < HEADER_SIZE {
        return None;
      }
      var headerBytes := buffer[..HEADER_SIZE];
      buffer := buffer[HEADER_SIZE..];
      var header := ReadHeader(headerBytes);
      if header.None? {
        return Some(Failed(InvalidHeader));
      }
      var rejection := Rejection(header.value, protocol);
      if rejection.Some? {
        return Some(Failed(rejection.value));
      }
      currentHeader := header;
      r := TryDeserializePayload(header.value);
    }

    /** The result and the filter are what the frame calls for. */
    ghost predicate Handled(before: Filter, frame: Option<Frame>, r: Option<Outcome>)
      reads Shared()
      requires FilterValid()
    {
      if frame.None? then r.None? && View() == before
      else r == Some(Deliver(before, frame.value)) && View() == FilterAfter(before, frame.value)
    }

    method TryDeserializePayload(header: Header) returns (r: Option<Outcome>)
      requires FilterValid() && currentHeader == Some(header)
      modifies this`buffer, this`currentHeader, Shared()
      ensures FilterValid()
      ensures var (frame, next) := TakePayload(header, old(buffer)); State() == next && Handled(old(View()), frame, r)
    {
      hide DecodeMessage, PayloadLength;
      if LengthFor(header) > 0 && |buffer| < LengthFor(header) {
        return None;
      }
      currentHeader := None;
      var result := DeserializePayload(header);
      r := Some(result);
    }

    method DeserializePayload(header: Header) returns (r: Outcome)
      requires FilterValid() && LengthFor(header) <= |buffer|
      modifies this`buffer, Shared()
      ensures FilterValid() && buffer == old(buffer[LengthFor(header)..])
      ensures var frame := Framed(header, old(buffer[..LengthFor(header)]));
        r == Deliver(old(View()), frame) && View() == FilterAfter(old(View()), frame)
    {
      hide DecodeMessage, LengthFor;
      var payload := buffer[..LengthFor(header)];
      buffer := buffer[LengthFor(header)..];
      var digest, duplicate := FilterDuplicates(header, payload);
      if duplicate.Some? {
        return Failed(duplicate.value);
      }
      var m := DecodeMessage(header.messageType, header.ext, payload, digest);
      r := if m.None? then Failed(InvalidMessage(header.messageType)) else Received(m.value, header.protocol);
    }

    method FilterDuplicates(header: Header, payload: seq<byte>) returns (digest: nat, duplicate: Option<ParseError>)
      requires FilterValid()
      modifies Shared()
      ensures FilterValid() && View() == FilterAfter(old(View()), Framed(header, payload))
      ensures duplicate.Some? <==> Seen(old(View()), Framed(header, payload))
      ensures duplicate.Some? ==> duplicate.value == if header.messageType.ConfirmAckType? then DuplicateConfirmAck else DuplicatePublish
      ensures duplicate.None? ==> digest == Digest(old(View()), Framed(header, payload))
    {
      if IsFiltered(header.messageType) && networkFilter != null {
        var existed;
        digest, existed := networkFilter.Apply(payload);
        duplicate := if !existed then None else
          Some(if header.messageType.ConfirmAckType? then DuplicateConfirmAck else DuplicatePublish);
      } else {
        digest, duplicate := 0, None;
      }
    }
  }
}
