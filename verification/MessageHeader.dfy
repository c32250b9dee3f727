/** The eight-byte header in front of every message. */
module MessageHeader {
  import opened Options
  import opened Bytes
  import opened Messages

  datatype Network = InvalidNetworkId | Dev | Beta | Live | Test

  function NetworkCode(n: Network): U16 {
    match n
    case InvalidNetworkId => 0x0 case Dev => 0x5241 case Beta => 0x5242 case Live => 0x5243 case Test => 0x5258
  }

  function NetworkOf(code: U16): (n: Option<Network>)
    ensures n.Some? ==> NetworkCode(n.value) == code
    ensures n.None? ==> forall k: Network :: NetworkCode(k) != code
  {
    match code
    case 0x0 => Some(InvalidNetworkId) case 0x5241 => Some(Dev) case 0x5242 => Some(Beta) case 0x5243 => Some(Live)
    case 0x5258 => Some(Test) case _ => None
  }

  datatype Protocol = Protocol(versionUsing: U8, versionMax: U8, versionMin: U8, network: Network)

  datatype Header = Header(messageType: MessageType, protocol: Protocol, ext: U16)

  const HEADER_SIZE: nat := 8
  const MAX_MESSAGE_SIZE: nat := 1024 * 65

  datatype ParseError =
    | InvalidHeader | InvalidMessage(messageType: MessageType) | InvalidNetwork | OutdatedVersion
    | DuplicatePublish | DuplicateConfirmAck | MessageSizeTooBig

  function HeaderBytes(h: Header): (s: seq<byte>)
    ensures |s| == HEADER_SIZE
  {
    BigEndian(NetworkCode(h.protocol.network), 2)
    + ([h.protocol.versionMax, h.protocol.versionUsing, h.protocol.versionMin, TypeCode(h.messageType)]
       + LittleEndian(h.ext, 2))
  }

  function ReadHeader(s: seq<byte>): (h: Option<Header>)
    requires |s| == HEADER_SIZE
  {
    var code :- ReadU16Be(s);
    var network :- NetworkOf(code.value);
    var rest := code.rest;
    var messageType :- TypeOfCode(rest[3]);
    var ext :- ReadU16Le(rest[4..]);
    Some(Header(messageType, Protocol(rest[1], rest[0], rest[2], network), ext.value))
  }

  /** A byte string is read as a header exactly when it is what that header is written as. */
  lemma HeaderCodec(s: seq<byte>, h: Header)
    requires |s| == HEADER_SIZE
    ensures ReadHeader(s) == Some(h) <==> s == HeaderBytes(h)
  {
    if s == HeaderBytes(h) {
      HeaderReadBack(h);
    } else if ReadHeader(s) == Some(h) {
      ReadIsWritten(s, h);
    }
  }

  lemma HeaderReadBack(h: Header)
    ensures ReadHeader(HeaderBytes(h)) == Some(h)
  {
    var p := h.protocol;
    var middle := [p.versionMax, p.versionUsing, p.versionMin, TypeCode(h.messageType)];
    var ext := LittleEndian(h.ext, 2);
    ReadBackU16(NetworkCode(p.network), middle + ext);
    hide BigEndian, LittleEndian, ReadU16Be, ReadU16Le;
    assert (middle + ext)[4..] == ext == ext + [];
    ReadBackU16(h.ext, []);
  }

  lemma ReadIsWritten(s: seq<byte>, h: Header)
    requires |s| == HEADER_SIZE && ReadHeader(s) == Some(h)
    ensures s == HeaderBytes(h)
  {
    var t := s[2..][4..];
    FromBigEndianRoundTrip(s[..2]);
    FromLittleEndianRoundTrip(t);
    hide BigEndian, LittleEndian, FromBigEndian, FromLittleEndian;
    assert t[..2] == t;
  }

  /** Whether a header is acceptable, and why not. */
  function Rejection(h: Header, expected: Protocol): Option<ParseError> {
    if h.protocol.network != expected.network then Some(InvalidNetwork)
    else if h.protocol.versionUsing < expected.versionMin then Some(OutdatedVersion)
    else if h.messageType.InvalidType? || h.messageType.NotAType? then Some(InvalidHeader)
    else if PayloadLength(h.messageType, h.ext) > MAX_MESSAGE_SIZE then Some(MessageSizeTooBig)
    else None
  }

  /** No header can announce a payload beyond the limit of 65 kilobytes, whatever its extension bits are. */
  lemma NothingIsTooBig(t: MessageType, ext: U16)
    ensures PayloadLength(t, ext) <= MAX_MESSAGE_SIZE == 66560
  {
    assert Count(ext) <= 255;
  }

  /** Why a header is refused: a foreign network comes before an old version, and that before a type that is none. */
  lemma RejectionExactly(h: Header, expected: Protocol)
    ensures
      var rejection := Rejection(h, expected);
      var (ours, recent) := (h.protocol.network == expected.network, h.protocol.versionUsing >= expected.versionMin);
      var noType := TypeCode(h.messageType) < 2;
      && (rejection == Some(InvalidNetwork) <==> !ours)
      && (rejection == Some(OutdatedVersion) <==> ours && !recent)
      && (rejection == Some(InvalidHeader) <==> ours && recent && noType)
      && (rejection == None <==> ours && recent && !noType)
  {
    hide PayloadLength;
    NothingIsTooBig(h.messageType, h.ext);
  }
}
