/** Writing a message behind room for its header, and the header into that room. */
module MessageSerializer {
  import opened Bytes
  import opened Messages
  import opened MessageHeader
  import opened MessageStream

  class MessageSerializer {
    const protocol: Protocol
    var buffer: seq<byte>

    constructor (protocol: Protocol)
      ensures this.protocol == protocol
    {
      this.protocol, buffer := protocol, [];
    }

    /** The bytes depend on the message alone, not on what the buffer held before. */
    method Serialize(m: Message) returns (bytes: seq<byte>)
      modifies this
      ensures bytes == Serialized(protocol, m) && buffer == bytes
    {
      hide Extensions, PayloadBytes, HeaderBytes;
      Resize(HEADER_SIZE);
      buffer := buffer + PayloadBytes(m);
      var payloadLen := |buffer| - HEADER_SIZE;
      var header := Header(TypeOf(m), protocol, Extensions(m, U16Of(payloadLen)));
      buffer := HeaderBytes(header) + buffer[HEADER_SIZE..];
      assert buffer[HEADER_SIZE..] == PayloadBytes(m);
      bytes := buffer[..HEADER_SIZE + payloadLen];
    }

    /** Shrinking keeps the front, growing appends zeros. */
    method Resize(size: nat)
      modifies this
      ensures |buffer| == size
      ensures forall i :: 0 <= i < size ==> buffer[i] == if i < |old(buffer)| then old(buffer[i]) else 0
    {
      buffer := if |buffer| >= size then buffer[..size] else buffer + seq(size - |buffer|, _ => 0);
    }
  }
}
