/** Where each field of a sent message is on the wire, byte by byte. */
module WireLayout {
  import opened Options
  import opened Bytes
  import opened Messages
  import opened MessageHeader
  import opened WireRoundTrip
  import opened MessageStream

  /** The bytes of `part` start at position `i`. */
  predicate At(s: seq<byte>, i: nat, part: seq<byte>) {
    i + |part| <= |s| && s[i..i + |part|] == part
  }

  lemma AtBehind(a: seq<byte>, b: seq<byte>, i: nat, part: seq<byte>)
    requires At(b, i, part)
    ensures At(a + b, |a| + i, part)
  {
    assert (a + b)[|a| + i..|a| + i + |part|] == b[i..i + |part|];
  }

  lemma All(s: seq<byte>)
    ensures At(s, 0, s)
  {
  }

  /** Two parts next to each other. */
  lemma Split(s: seq<byte>, i: nat, part: seq<byte>, rest: seq<byte>)
    requires At(s, i, part + rest)
    ensures At(s, i, part) && At(s, i + |part|, rest)
  {
    assert s[i..i + |part|] == (part + rest)[..|part|] && s[i + |part|..i + |part| + |rest|] == (part + rest)[|part|..];
  }

  lemma One(s: seq<byte>, i: nat, b: byte)
    requires At(s, i, [b])
    ensures i < |s| && s[i] == b
  {
    assert s[i..i + 1][0] == s[i];
  }

  // ----- Numbers -----

  /** What is left of a number without its last `i` bytes. */
  function Without(n: nat, i: nat): nat {
    if i == 0 then n else Without(n / 256, i - 1)
  }

  /** The last byte of a number comes last, and so on. */
  lemma {:induction false} BigEndianDigit(n: nat, width: nat, i: nat)
    requires i < width
    ensures BigEndian(n, width)[width - 1 - i] == Without(n, i) % 256
    decreases width
  {
    if i > 0 {
      BigEndianDigit(n / 256, width - 1, i - 1);
    }
  }

  /** The last byte of a number comes first, and so on. */
  lemma {:induction false} LittleEndianDigit(n: nat, width: nat, i: nat)
    requires i < width
    ensures LittleEndian(n, width)[i] == Without(n, i) % 256
    decreases width
  {
    if i > 0 {
      LittleEndianDigit(n / 256, width - 1, i - 1);
    }
  }

  // ----- The header -----

  /** The number of the kind of a message. */
  function KindByte(m: Message): byte {
    if m.Keepalive? then 2 else if m.Publish? then 3 else if m.ConfirmReq? then 4 else if m.ConfirmAck? then 5
    else if m.BulkPull? then 6 else if m.BulkPush? then 7 else if m.FrontierReq? then 8 else if m.NodeIdHandshake? then 10
    else if m.BulkPullAccount? then 11 else if m.TelemetryReq? then 12 else if m.TelemetryAck? then 13 else if m.AscPullReq? then 14
    else 15
  }

  /** The letter of the network, behind an R: A for development, B for beta, C for live, X for test. */
  function NetworkByte(n: Network): byte {
    match n case InvalidNetworkId => 0 case Dev => 65 case Beta => 66 case Live => 67 case Test => 88
  }

  /** The header of a sent message. */
  lemma HeaderLayout(p: Protocol, m: Message)
    ensures
      var s := Serialized(p, m);
      && |s| == 8 + |PayloadBytes(m)| && At(s, 8, PayloadBytes(m))
      && s[0] == (if p.network.InvalidNetworkId? then 0 else 82) && s[1] == NetworkByte(p.network)
      && s[2] == p.versionMax && s[3] == p.versionUsing && s[4] == p.versionMin
      && s[5] == KindByte(m) && s[6] == ExtensionsOf(m) % 256 && s[7] == ExtensionsOf(m) / 256
  {
    hide PayloadBytes, ExtensionsOf;
    var header := HeaderFor(p, m);
    var (network, ext) := (NetworkCode(p.network), ExtensionsOf(m));
    assert BigEndian(network, 2) == [network / 256, network % 256] by { TwoBytes(network); }
    assert LittleEndian(ext, 2) == [ext % 256, ext / 256] by { TwoBytes(ext); }
    hide BigEndian, LittleEndian;
    assert HeaderBytes(header) == [network / 256, network % 256, p.versionMax, p.versionUsing, p.versionMin, TypeCode(TypeOf(m))]
                                  + [ext % 256, ext / 256];
  }

  lemma TwoBytes(n: U16)
    ensures BigEndian(n, 2) == [n / 256, n % 256] && LittleEndian(n, 2) == [n % 256, n / 256]
  {
    assert BigEndian(n / 256, 1) == BigEndian(n / 65536, 0) + [n / 256];
    assert LittleEndian(n / 256, 1) == [n / 256] + LittleEndian(n / 65536, 0);
  }

  /** The number of the type of a block. */
  function BlockByte(t: BlockType): byte {
    match t case LegacySend => 2 case LegacyReceive => 3 case LegacyOpen => 4 case LegacyChange => 5 case State => 6
  }

  function Weigh(yes: bool, weight: byte): byte {
    if yes then weight else 0
  }

  /** The two extension bytes of a message, low byte first. */
  ghost predicate ExtensionLayout(m: Message, low: nat, high: nat) {
    match m
    case Publish(block, isOriginator, _) => low == Weigh(isOriginator, 4) && high == BlockByte(block.blockType)
    case ConfirmReq(roots) =>
      if |roots| < 16 then low == 0 && high == 16 * |roots| + 1 else low == |roots| % 16 * 16 + 1 && high == |roots| / 16 * 16 + 1
    case ConfirmAck(vote, isRebroadcasted, _) =>
      var n := |vote.hashes|;
      if n < 16 then low == Weigh(isRebroadcasted, 4) && high == 16 * n
      else low == n % 16 * 16 + 1 + Weigh(isRebroadcasted, 4) && high == n / 16 * 16
    case BulkPull(_, _, count, ascending) => low == Weigh(count > 0, 1) + Weigh(ascending, 2) && high == 0
    case FrontierReq(_, _, _, onlyConfirmed) => low == Weigh(onlyConfirmed, 2) && high == 0
    case NodeIdHandshake(h) => low == Weigh(h.query.Some?, 1) + Weigh(h.response.Some?, 2) + Weigh(h.isV2, 4) && high == 0
    case AscPullReq(_, _) => low + 256 * high + 9 == |PayloadBytes(m)|
    case AscPullAck(_, _) => |PayloadBytes(m)| < 0x1_0000 ==> low + 256 * high + 9 == |PayloadBytes(m)|
    case TelemetryAck(Some(data)) => |data.unknown| < 65000 ==> low + 256 * high == 202 + |data.unknown|
    case _ => low == 0 && high == 0
  }

  lemma ExtensionBytes(m: Message)
    ensures ExtensionLayout(m, ExtensionsOf(m) % 256, ExtensionsOf(m) / 256)
  {
    hide ExtensionLayout, ExtensionsOf;
    match m {
      case ConfirmReq(_) => CountExtension(m);
      case ConfirmAck(_, _, _) => CountExtension(m);
      case AscPullReq(_, _) => PullExtension(m);
      case AscPullAck(_, _) => PullExtension(m);
      case TelemetryAck(_) => TelemetryExtension(m);
      case _ => FlagExtension(m);
    }
  }

  lemma FlagExtension(m: Message)
    requires !m.ConfirmReq? && !m.ConfirmAck? && !m.AscPullReq? && !m.AscPullAck? && !m.TelemetryAck?
    ensures ExtensionLayout(m, ExtensionsOf(m) % 256, ExtensionsOf(m) / 256)
  {
    hide PayloadBytes, CountBits, U16Of;
  }

  lemma CountExtension(m: Message)
    requires m.ConfirmReq? || m.ConfirmAck?
    ensures ExtensionLayout(m, ExtensionsOf(m) % 256, ExtensionsOf(m) / 256)
  {
    hide PayloadBytes, CountBits, U16Of;
    if m.ConfirmReq? {
      CountBytes(|m.roots|, 0, 1);
    } else {
      CountBytes(|m.vote.hashes|, Flag(m.isRebroadcasted, 4), 0);
    }
  }

  lemma PullExtension(m: Message)
    requires m.AscPullReq? || m.AscPullAck?
    ensures ExtensionLayout(m, ExtensionsOf(m) % 256, ExtensionsOf(m) / 256)
  {
    hide PayloadBytes, AscPullAckBytes, CountBits, U16Of;
    NoUnderflow(m);
    FitsIn16(|PayloadBytes(m)|);
    PullBytes(|PayloadBytes(m)|);
  }

  lemma TelemetryExtension(m: Message)
    requires m.TelemetryAck?
    ensures ExtensionLayout(m, ExtensionsOf(m) % 256, ExtensionsOf(m) / 256)
  {
    hide PayloadBytes, U16Of;
    FitsIn16(202 + if m.data.Some? then |m.data.value.unknown| else 0);
  }

  lemma CountBytes(count: U8, low: nat, high: nat)
    requires low <= 4 && high <= 1
    ensures
      var ext := U16Of(CountBits(count) + low + high * 256);
      if count < 16 then ext % 256 == low && ext / 256 == 16 * count + high
      else ext % 256 == count % 16 * 16 + 1 + low && ext / 256 == count / 16 * 16 + high
  {
  }

  lemma PullBytes(length: nat)
    ensures
      var ext := U16Of(U16Of(length) + 0x1_0000 - 9);
      9 <= length < 0x1_0000 ==> ext % 256 + 256 * (ext / 256) + 9 == length
  {
  }

  lemma FitsIn16(n: nat)
    ensures n < 0x1_0000 ==> U16Of(n) == n && U16Of(n) % 256 + 256 * (U16Of(n) / 256) == n
  {
  }

  /** The length of a block whose type is given by its number; anything else is no block. */
  function LengthOfBlock(number: nat): nat {
    if number == 2 then 152 else if number == 3 || number == 5 then 136 else if number == 4 then 168
    else if number == 6 then 216 else 0
  }

  /** The payload length that a receiver reads off the kind and the extension bits, whatever these are. */
  lemma AnnouncedLengths(ext: U16)
    ensures
      var (number, wide) := (ext / 256 % 16, ext % 2 == 1);
      var count := if wide then ext / 4096 * 16 + ext / 16 % 16 else ext / 4096;
      && PayloadLength(KeepaliveType, ext) == 144
      && PayloadLength(PublishType, ext) == LengthOfBlock(number)
      && PayloadLength(ConfirmReqType, ext) == (if number == 1 then 64 * count else LengthOfBlock(number))
      && PayloadLength(ConfirmAckType, ext) == 104 + 32 * count
      && PayloadLength(BulkPullType, ext) == (if wide then 72 else 64)
      && PayloadLength(FrontierReqType, ext) == 40 && PayloadLength(BulkPullAccountType, ext) == 49
      && PayloadLength(NodeIdHandshakeType, ext) ==
         (if wide then 32 else 0) + (if ext / 2 % 2 == 0 then 0 else if ext / 4 % 2 == 0 then 96 else 160)
      && PayloadLength(TelemetryAckType, ext) == ext % 1024
      && PayloadLength(AscPullReqType, ext) == PayloadLength(AscPullAckType, ext) == 9 + ext
      && PayloadLength(BulkPushType, ext) == PayloadLength(TelemetryReqType, ext) == 0
  {
  }

  // ----- Lists -----

  lemma {:induction false} PairAt(ps: seq<(Bytes32, Bytes32)>, i: nat)
    requires i < |ps|
    ensures At(PairsBytes(ps), 64 * i, ps[i].0) && At(PairsBytes(ps), 64 * i + 32, ps[i].1)
  {
    var rest := PairsBytes(ps[1..]);
    if i == 0 {
      assert PairsBytes(ps) == ps[0].0 + (ps[0].1 + rest);
    } else {
      PairAt(ps[1..], i - 1);
      AtBehind(PairBytes(ps[0]), rest, 64 * (i - 1), ps[i].0);
      AtBehind(PairBytes(ps[0]), rest, 64 * (i - 1) + 32, ps[i].1);
    }
  }

  lemma {:induction false} HashAt(hs: seq<Bytes32>, i: nat)
    requires i < |hs|
    ensures At(HashesBytes(hs), 32 * i, hs[i])
  {
    if i > 0 {
      HashAt(hs[1..], i - 1);
      AtBehind(hs[0], HashesBytes(hs[1..]), 32 * (i - 1), hs[i]);
    }
  }

  lemma {:induction false} PeerAt(ps: seq<Peer>, i: nat)
    requires i < |ps|
    ensures At(PeersBytes(ps), 18 * i, ps[i].ip) && At(PeersBytes(ps), 18 * i + 16, [ps[i].port % 256, ps[i].port / 256])
  {
    TwoBytes(ps[0].port);
    var first, rest := ps[0].ip + LittleEndian(ps[0].port, 2), PeersBytes(ps[1..]);
    assert PeersBytes(ps) == first + rest;
    if i > 0 {
      PeerAt(ps[1..], i - 1);
      AtBehind(first, rest, 18 * (i - 1), ps[i].ip);
      AtBehind(first, rest, 18 * (i - 1) + 16, [ps[i].port % 256, ps[i].port / 256]);
    }
  }

  lemma {:induction false} Terminated(bs: seq<Block>)
    ensures BlocksBytes(bs)[|BlocksBytes(bs)| - 1] == 1
    ensures bs != [] ==> BlocksBytes(bs)[0] == BlockByte(bs[0].blockType) && At(BlocksBytes(bs), 1, bs[0].body)
    ensures bs != [] ==> At(BlocksBytes(bs), 1 + |bs[0].body|, BlocksBytes(bs[1..]))
  {
    if bs != [] {
      Terminated(bs[1..]);
      var rest := BlocksBytes(bs[1..]);
      assert BlocksBytes(bs) == ([BlockTypeId(bs[0].blockType)] + bs[0].body) + rest;
    }
  }

  // ----- Payloads -----

  lemma KeepaliveLayout(peers: Peers, i: nat)
    requires i < 8
    ensures
      var s := PayloadBytes(Keepalive(peers));
      |s| == 144 && At(s, 18 * i, peers[i].ip) && At(s, 18 * i + 16, [peers[i].port % 256, peers[i].port / 256])
  {
    PeerAt(peers, i);
  }

  lemma PublishLayout(block: Block, isOriginator: bool, digest: nat)
    ensures
      var s := PayloadBytes(Publish(block, isOriginator, digest));
      && s == block.body
      && |s| == match block.blockType case LegacySend => 152 case LegacyReceive => 136 case LegacyOpen => 168 case LegacyChange => 136
                case State => 216
  {
  }

  lemma ConfirmReqLayout(roots: Roots, i: nat)
    requires i < |roots|
    ensures
      var s := PayloadBytes(ConfirmReq(roots));
      |s| == 64 * |roots| && At(s, 64 * i, roots[i].0) && At(s, 64 * i + 32, roots[i].1)
  {
    PairAt(roots, i);
  }

  lemma ConfirmAckLayout(vote: Vote, isRebroadcasted: bool, digest: nat, i: nat)
    requires i < |vote.hashes|
    ensures
      var s := PayloadBytes(ConfirmAck(vote, isRebroadcasted, digest));
      && |s| == 104 + 32 * |vote.hashes|
      && At(s, 0, vote.voter) && At(s, 32, vote.signature) && At(s, 96, LittleEndian(vote.timestamp, 8))
      && At(s, 104 + 32 * i, vote.hashes[i])
  {
    hide LittleEndian, HashesBytes;
    var hashes := HashesBytes(vote.hashes);
    HashAt(vote.hashes, i);
    var front := vote.voter + (vote.signature + LittleEndian(vote.timestamp, 8));
    assert VoteBytes(vote) == front + hashes;
    AtBehind(front, hashes, 32 * i, vote.hashes[i]);
  }

  lemma AscPullReqLayout(id: U64, req: AscPullQuery)
    ensures
      var s := PayloadBytes(AscPullReq(id, req));
      At(s, 1, BigEndian(id, 8)) &&
      match req
      case BlocksReq(startType, start, count) =>
        |s| == 43 && s[0] == 1 && At(s, 9, start) && s[41] == count && s[42] == if startType.Account? then 0 else 1
      case AccountInfoReq(target, targetType) =>
        |s| == 42 && s[0] == 2 && At(s, 9, target) && s[41] == if targetType.Account? then 0 else 1
      case FrontiersReq(first, count) => |s| == 43 && s[0] == 3 && At(s, 9, first) && s[41] == count / 256 && s[42] == count % 256
  {
    hide BigEndian, At, AscPullReqBytes;
    var s := PayloadBytes(AscPullReq(id, req));
    All(s);
    Split(s, 0, [AscPullReqCode(req)], BigEndian(id, 8) + AscPullReqBytes(req));
    One(s, 0, AscPullReqCode(req));
    Split(s, 1, BigEndian(id, 8), AscPullReqBytes(req));
    ReqLayout(s, req);
  }

  /** The part of a pull request behind its number. */
  lemma ReqLayout(s: seq<byte>, req: AscPullQuery)
    requires At(s, 9, AscPullReqBytes(req))
    ensures
      match req
      case BlocksReq(startType, start, count) =>
        |AscPullReqBytes(req)| == 34 && At(s, 9, start) && s[41] == count && s[42] == if startType.Account? then 0 else 1
      case AccountInfoReq(target, targetType) =>
        |AscPullReqBytes(req)| == 33 && At(s, 9, target) && s[41] == if targetType.Account? then 0 else 1
      case FrontiersReq(first, count) =>
        |AscPullReqBytes(req)| == 34 && At(s, 9, first) && s[41] == count / 256 && s[42] == count % 256
  {
    hide BigEndian, At;
    match req {
      case BlocksReq(startType, start, count) =>
        Split(s, 9, start, [count] + [HashTypeCode(startType)]);
        Split(s, 41, [count], [HashTypeCode(startType)]);
        One(s, 41, count);
        One(s, 42, HashTypeCode(startType));
      case AccountInfoReq(target, targetType) =>
        Split(s, 9, target, [HashTypeCode(targetType)]);
        One(s, 41, HashTypeCode(targetType));
      case FrontiersReq(first, count) =>
        Split(s, 9, first, BigEndian(count, 2));
        TwoBytes(count);
        assert BigEndian(count, 2) == [count / 256] + [count % 256];
        Split(s, 41, [count / 256], [count % 256]);
        One(s, 41, count / 256);
        One(s, 42, count % 256);
    }
  }

  lemma AscPullAckLayout(id: U64, ack: AscPullReply)
    ensures
      var s := PayloadBytes(AscPullAck(id, ack));
      && At(s, 1, BigEndian(id, 8)) && At(s, 9, AscPullAckBytes(ack))
      && s[0] == if ack.BlocksAck? then 1 else if ack.AccountInfoAck? then 2 else 3
  {
    hide BigEndian, AscPullAckBytes;
    assert PayloadBytes(AscPullAck(id, ack)) == ([AscPullAckCode(ack)] + BigEndian(id, 8)) + AscPullAckBytes(ack);
  }

  lemma AccountInfoLayout(i: AccountInfo)
    ensures
      var s := AscPullAckBytes(AccountInfoAck(i));
      && |s| == 144 && At(s, 0, i.account) && At(s, 32, i.open) && At(s, 64, i.head) && At(s, 96, BigEndian(i.blockCount, 8))
      && At(s, 104, i.confFrontier) && At(s, 136, BigEndian(i.confHeight, 8))
  {
    hide BigEndian, At;
    var s, height := AscPullAckBytes(AccountInfoAck(i)), BigEndian(i.confHeight, 8);
    var frontier := i.confFrontier + height;
    var count := BigEndian(i.blockCount, 8) + frontier;
    All(s);
    Split(s, 0, i.account, i.open + (i.head + count));
    Split(s, 32, i.open, i.head + count);
    Split(s, 64, i.head, count);
    Split(s, 96, BigEndian(i.blockCount, 8), frontier);
    Split(s, 104, i.confFrontier, height);
  }

  lemma FrontiersLayout(frontiers: seq<(Bytes32, Bytes32)>, i: nat)
    requires i < |frontiers|
    ensures
      var s := AscPullAckBytes(FrontiersAck(frontiers));
      && |s| == 64 * |frontiers| + 64 && At(s, 64 * i, frontiers[i].0) && At(s, 64 * i + 32, frontiers[i].1)
      && At(s, 64 * |frontiers|, seq(64, _ => 0))
  {
    PairAt(frontiers, i);
    assert PairBytes((Zero32(), Zero32())) == seq(64, _ => 0);
    hide PairsBytes;
  }

  lemma BulkPullLayout(start: Bytes32, end: Bytes32, count: U32, ascending: bool)
    ensures
      var s := PayloadBytes(BulkPull(start, end, count, ascending));
      && At(s, 0, start) && At(s, 32, end)
      && if count == 0 then |s| == 64 else |s| == 72 && s[64] == 0 && At(s, 65, LittleEndian(count, 4)) && At(s, 69, [0, 0, 0])
  {
    hide LittleEndian;
  }

  lemma BulkPullAccountLayout(account: Bytes32, minimum: U128, flags: BulkPullAccountFlags)
    ensures
      var s := PayloadBytes(BulkPullAccount(account, minimum, flags));
      && |s| == 49 && At(s, 0, account) && At(s, 32, BigEndian(minimum, 16))
      && s[48] == if flags.PendingHashAndAmount? then 0 else if flags.PendingAddressOnly? then 1 else 2
  {
    hide BigEndian;
  }

  lemma FrontierReqLayout(start: Bytes32, age: U32, count: U32, onlyConfirmed: bool)
    ensures
      var s := PayloadBytes(FrontierReq(start, age, count, onlyConfirmed));
      |s| == 40 && At(s, 0, start) && At(s, 32, LittleEndian(age, 4)) && At(s, 36, LittleEndian(count, 4))
  {
    hide LittleEndian, At;
    var s := PayloadBytes(FrontierReq(start, age, count, onlyConfirmed));
    All(s);
    Split(s, 0, start, LittleEndian(age, 4) + LittleEndian(count, 4));
    Split(s, 32, LittleEndian(age, 4), LittleEndian(count, 4));
  }

  /** Where a response has its fields, if it starts at `first`. */
  predicate ResponseAt(s: seq<byte>, first: nat, r: Response) {
    && At(s, first, r.nodeId)
    && if r.v2.None? then At(s, first + 32, r.signature)
       else At(s, first + 32, r.v2.value.salt) && At(s, first + 64, r.v2.value.genesis) && At(s, first + 96, r.signature)
  }

  lemma ResponseLayout(s: seq<byte>, first: nat, r: Response)
    requires At(s, first, ResponseBytes(r))
    ensures ResponseAt(s, first, r)
  {
    hide At;
    match r.v2 {
      case Some(v2) =>
        Split(s, first, r.nodeId, v2.salt + (v2.genesis + r.signature));
        Split(s, first + 32, v2.salt, v2.genesis + r.signature);
        Split(s, first + 64, v2.genesis, r.signature);
      case None => Split(s, first, r.nodeId, r.signature);
    }
  }

  lemma HandshakeLayout(h: Handshake)
    ensures
      var s := PayloadBytes(NodeIdHandshake(h));
      var first := if h.query.Some? then 32 else 0;
      && (h.query.Some? ==> At(s, 0, h.query.value))
      && |s| == first + (if h.response.None? then 0 else if h.response.value.v2.None? then 96 else 160)
      && (h.response.Some? ==> ResponseAt(s, first, h.response.value))
  {
    hide At, ResponseAt, ResponseBytes;
    var s := PayloadBytes(NodeIdHandshake(h));
    var query := if h.query.Some? then h.query.value else [];
    All(s);
    Split(s, 0, query, if h.response.Some? then ResponseBytes(h.response.value) else []);
    if h.response.Some? {
      ResponseLayout(s, |query|, h.response.value);
    }
  }

  lemma CountersLayout(s: seq<byte>, d: Telemetry)
    requires At(s, 96, TelemetryCounters(d))
    ensures At(s, 96, BigEndian(d.blockCount, 8)) && At(s, 104, BigEndian(d.cementedCount, 8))
    ensures At(s, 112, BigEndian(d.uncheckedCount, 8)) && At(s, 120, BigEndian(d.accountCount, 8)) && At(s, 128, BigEndian(d.bandwidthCap, 8))
  {
    hide BigEndian, At;
    var s4 := BigEndian(d.accountCount, 8) + BigEndian(d.bandwidthCap, 8);
    var s3 := BigEndian(d.uncheckedCount, 8) + s4;
    var s2 := BigEndian(d.cementedCount, 8) + s3;
    Split(s, 96, BigEndian(d.blockCount, 8), s2);
    Split(s, 104, BigEndian(d.cementedCount, 8), s3);
    Split(s, 112, BigEndian(d.uncheckedCount, 8), s4);
    Split(s, 120, BigEndian(d.accountCount, 8), BigEndian(d.bandwidthCap, 8));
  }

  /** The fields behind the genesis block. */
  lemma VersionLayout(s: seq<byte>, d: Telemetry)
    requires At(s, 181, VersionsBytes(d.versions) + (BigEndian(d.timestamp, 8) + (BigEndian(d.activeDifficulty, 8) + d.unknown)))
    ensures At(s, 181, [d.versions.major, d.versions.minor, d.versions.patch, d.versions.preRelease, d.versions.maker])
    ensures At(s, 186, BigEndian(d.timestamp, 8)) && At(s, 194, BigEndian(d.activeDifficulty, 8)) && At(s, 202, d.unknown)
  {
    hide BigEndian, At;
    var s9 := BigEndian(d.activeDifficulty, 8) + d.unknown;
    Split(s, 181, VersionsBytes(d.versions), BigEndian(d.timestamp, 8) + s9);
    Split(s, 186, BigEndian(d.timestamp, 8), s9);
    Split(s, 194, BigEndian(d.activeDifficulty, 8), d.unknown);
  }

  /** The fields behind the counters. */
  function Behind(d: Telemetry): seq<byte> {
    BigEndian(d.peerCount, 4) + ([d.protocolVersion] + (BigEndian(d.uptime, 8) + (d.genesis + (VersionsBytes(d.versions) +
    (BigEndian(d.timestamp, 8) + (BigEndian(d.activeDifficulty, 8) + d.unknown))))))
  }

  lemma BehindLayout(s: seq<byte>, d: Telemetry)
    requires At(s, 136, Behind(d))
    ensures At(s, 136, BigEndian(d.peerCount, 4)) && At(s, 140, [d.protocolVersion]) && At(s, 141, BigEndian(d.uptime, 8))
    ensures At(s, 149, d.genesis)
    ensures At(s, 181, [d.versions.major, d.versions.minor, d.versions.patch, d.versions.preRelease, d.versions.maker])
    ensures At(s, 186, BigEndian(d.timestamp, 8)) && At(s, 194, BigEndian(d.activeDifficulty, 8)) && At(s, 202, d.unknown)
  {
    hide BigEndian, At, VersionsBytes;
    var s7 := VersionsBytes(d.versions) + (BigEndian(d.timestamp, 8) + (BigEndian(d.activeDifficulty, 8) + d.unknown));
    var s5 := BigEndian(d.uptime, 8) + (d.genesis + s7);
    Split(s, 136, BigEndian(d.peerCount, 4), [d.protocolVersion] + s5);
    Split(s, 140, [d.protocolVersion], s5);
    Split(s, 141, BigEndian(d.uptime, 8), d.genesis + s7);
    Split(s, 149, d.genesis, s7);
    VersionLayout(s, d);
  }

  lemma TelemetryParts(d: Telemetry)
    ensures TelemetryBytes(d) == d.signature + (d.nodeId + (TelemetryCounters(d) + Behind(d)))
  {
    hide BigEndian, TelemetryCounters, VersionsBytes;
  }

  lemma TelemetryLayout(d: Telemetry)
    ensures
      var s := PayloadBytes(TelemetryAck(Some(d)));
      && |s| == 202 + |d.unknown| && At(s, 0, d.signature) && At(s, 64, d.nodeId)
      && At(s, 96, BigEndian(d.blockCount, 8)) && At(s, 104, BigEndian(d.cementedCount, 8))
      && At(s, 112, BigEndian(d.uncheckedCount, 8)) && At(s, 120, BigEndian(d.accountCount, 8)) && At(s, 128, BigEndian(d.bandwidthCap, 8)) && At(s, 136, BigEndian(d.peerCount, 4))
      && At(s, 140, [d.protocolVersion]) && At(s, 141, BigEndian(d.uptime, 8)) && At(s, 149, d.genesis)
      && At(s, 181, [d.versions.major, d.versions.minor, d.versions.patch, d.versions.preRelease, d.versions.maker])
      && At(s, 186, BigEndian(d.timestamp, 8)) && At(s, 194, BigEndian(d.activeDifficulty, 8)) && At(s, 202, d.unknown)
  {
    hide BigEndian, At, TelemetryCounters, Behind, TelemetryBytes;
    var s := PayloadBytes(TelemetryAck(Some(d)));
    All(s);
    TelemetryParts(d);
    Split(s, 0, d.signature, d.nodeId + (TelemetryCounters(d) + Behind(d)));
    Split(s, 64, d.nodeId, TelemetryCounters(d) + Behind(d));
    Split(s, 96, TelemetryCounters(d), Behind(d));
    CountersLayout(s, d);
    BehindLayout(s, d);
  }
}
