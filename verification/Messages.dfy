/** The messages of the node protocol: their payloads, and the 16 extension bits of the
    header from which the receiver recomputes the payload length. */
module Messages {
  import opened Options
  import opened Bytes

  // ----- Blocks, kept as opaque bodies of a fixed size per type -----

  datatype BlockType = LegacySend | LegacyReceive | LegacyOpen | LegacyChange | State

  const NOT_A_BLOCK: nat := 1

  function BlockTypeId(t: BlockType): (id: nat)
    ensures 2 <= id <= 6
  {
    match t
    case LegacySend => 2
    case LegacyReceive => 3
    case LegacyOpen => 4
    case LegacyChange => 5
    case State => 6
  }

  function BlockTypeOf(id: nat): (t: Option<BlockType>)
    ensures t.Some? <==> 2 <= id <= 6
    ensures t.Some? ==> BlockTypeId(t.value) == id
  {
    match id
    case 2 => Some(LegacySend)
    case 3 => Some(LegacyReceive)
    case 4 => Some(LegacyOpen)
    case 5 => Some(LegacyChange)
    case 6 => Some(State)
    case _ => None
  }

  function BlockSize(t: BlockType): (size: nat)
    ensures 136 <= size <= 216
  {
    match t
    case LegacySend => 32 + 32 + 16 + 64 + 8
    case LegacyReceive => 32 + 32 + 64 + 8
    case LegacyOpen => 32 + 32 + 32 + 64 + 8
    case LegacyChange => 32 + 32 + 64 + 8
    case State => 32 + 32 + 32 + 16 + 32 + 64 + 8
  }

  datatype RawBlock = Block(blockType: BlockType, body: seq<byte>)
  type Block = b: RawBlock | |b.body| == BlockSize(b.blockType) witness Block(LegacySend, seq(152, _ => 0))

  function ReadBlock(t: BlockType, s: seq<byte>): Option<Read<Block>> {
    var r :- Take(s, BlockSize(t));
    Some(Read(Block(t, r.value), r.rest))
  }

  // ----- Message types -----

  datatype Peer = Peer(ip: Bytes16, port: U16, flowInfo: U32, scopeId: U32)
  type Peers = ps: seq<Peer> | |ps| == 8 witness seq(8, _ => Peer(seq(16, _ => 0), 0, 0, 0))

  type Roots = rs: seq<(Bytes32, Bytes32)> | |rs| <= 255
  type Hashes = hs: seq<Bytes32> | |hs| <= 255
  type Blocks = bs: seq<Block> | |bs| <= 128

  datatype Vote = Vote(voter: Bytes32, signature: Bytes64, timestamp: U64, hashes: Hashes)

  datatype HashType = Account | BlockHash

  datatype AscPullQuery =
    | BlocksReq(startType: HashType, start: Bytes32, count: U8)
    | AccountInfoReq(target: Bytes32, targetType: HashType)
    | FrontiersReq(first: Bytes32, frontierCount: U16)

  datatype AccountInfo = AccountInfo(
    account: Bytes32, open: Bytes32, head: Bytes32, blockCount: U64, confFrontier: Bytes32, confHeight: U64)

  datatype AscPullReply = BlocksAck(blocks: Blocks) | AccountInfoAck(info: AccountInfo) | FrontiersAck(frontiers: seq<(Bytes32, Bytes32)>)

  datatype V2Payload = V2Payload(salt: Bytes32, genesis: Bytes32)
  datatype Response = Response(nodeId: Bytes32, signature: Bytes64, v2: Option<V2Payload>)
  datatype Handshake = Handshake(query: Option<Bytes32>, response: Option<Response>, isV2: bool)

  datatype Telemetry = Telemetry(
    signature: Bytes64, nodeId: Bytes32, blockCount: U64, cementedCount: U64, uncheckedCount: U64, accountCount: U64,
    bandwidthCap: U64, peerCount: U32, protocolVersion: U8, uptime: U64, genesis: Bytes32, versions: Versions,
    timestamp: U64, activeDifficulty: U64, unknown: seq<byte>)
  datatype Versions = Versions(major: U8, minor: U8, patch: U8, preRelease: U8, maker: U8)

  const KNOWN_TELEMETRY: nat := 202

  datatype BulkPullAccountFlags = PendingHashAndAmount | PendingAddressOnly | PendingHashAmountAndAddress

  datatype Message =
    | Keepalive(peers: Peers)
    | Publish(block: Block, isOriginator: bool, publishDigest: nat)
    | AscPullAck(ackId: U64, ack: AscPullReply)
    | AscPullReq(reqId: U64, req: AscPullQuery)
    | BulkPull(pullStart: Bytes32, end: Bytes32, pullCount: U32, ascending: bool)
    | BulkPullAccount(account: Bytes32, minimumAmount: U128, flags: BulkPullAccountFlags)
    | BulkPush
    | ConfirmAck(vote: Vote, isRebroadcasted: bool, ackDigest: nat)
    | ConfirmReq(roots: Roots)
    | FrontierReq(frontierStart: Bytes32, age: U32, frontierReqCount: U32, onlyConfirmed: bool)
    | NodeIdHandshake(handshake: Handshake)
    | TelemetryAck(data: Option<Telemetry>)
    | TelemetryReq

  datatype MessageType =
    | InvalidType | NotAType | KeepaliveType | PublishType | ConfirmReqType | ConfirmAckType | BulkPullType | BulkPushType
    | FrontierReqType | NodeIdHandshakeType | BulkPullAccountType | TelemetryReqType | TelemetryAckType
    | AscPullReqType | AscPullAckType

  function TypeCode(t: MessageType): (code: U8)
    ensures code <= 0x0f && code != 9
  {
    match t
    case InvalidType => 0x00 case NotAType => 0x01 case KeepaliveType => 0x02 case PublishType => 0x03
    case ConfirmReqType => 0x04 case ConfirmAckType => 0x05 case BulkPullType => 0x06 case BulkPushType => 0x07
    case FrontierReqType => 0x08 case NodeIdHandshakeType => 0x0a case BulkPullAccountType => 0x0b
    case TelemetryReqType => 0x0c case TelemetryAckType => 0x0d case AscPullReqType => 0x0e case AscPullAckType => 0x0f
  }

  /** Value 9 was deleted from the protocol. */
  function TypeOfCode(code: U8): (t: Option<MessageType>)
    ensures t.Some? <==> code <= 0x0f && code != 9
    ensures t.Some? ==> TypeCode(t.value) == code
  {
    match code
    case 0x00 => Some(InvalidType) case 0x01 => Some(NotAType) case 0x02 => Some(KeepaliveType) case 0x03 => Some(PublishType)
    case 0x04 => Some(ConfirmReqType) case 0x05 => Some(ConfirmAckType) case 0x06 => Some(BulkPullType)
    case 0x07 => Some(BulkPushType) case 0x08 => Some(FrontierReqType) case 0x0a => Some(NodeIdHandshakeType)
    case 0x0b => Some(BulkPullAccountType) case 0x0c => Some(TelemetryReqType) case 0x0d => Some(TelemetryAckType)
    case 0x0e => Some(AscPullReqType) case 0x0f => Some(AscPullAckType) case _ => None
  }

  function TypeOf(m: Message): MessageType {
    match m
    case Keepalive(_) => KeepaliveType
    case Publish(_, _, _) => PublishType
    case AscPullAck(_, _) => AscPullAckType
    case AscPullReq(_, _) => AscPullReqType
    case BulkPull(_, _, _, _) => BulkPullType
    case BulkPullAccount(_, _, _) => BulkPullAccountType
    case BulkPush => BulkPushType
    case ConfirmAck(_, _, _) => ConfirmAckType
    case ConfirmReq(_) => ConfirmReqType
    case FrontierReq(_, _, _, _) => FrontierReqType
    case NodeIdHandshake(_) => NodeIdHandshakeType
    case TelemetryAck(_) => TelemetryAckType
    case TelemetryReq => TelemetryReqType
  }

  predicate IsObsolete(m: Message) {
    m.BulkPull? || m.BulkPullAccount? || m.BulkPush? || m.TelemetryReq?
  }

  // ----- Extension bits -----

  function Flag(yes: bool, weight: nat): nat {
    if yes then weight else 0
  }

  predicate Bit0(ext: U16) { ext % 2 == 1 }
  predicate Bit1(ext: U16) { ext / 2 % 2 == 1 }
  predicate Bit2(ext: U16) { ext / 4 % 2 == 1 }

  /** The block type field, bits 8 to 11. */
  function BlockTypeField(ext: U16): nat {
    ext / 0x100 % 16
  }

  /** Counts below 16 sit in the top four bits. Larger ones are split over two fields, with bit 0 set. */
  function CountBits(count: U8): U16 {
    if count < 16 then count * 0x1000 else count / 16 * 0x1000 + count % 16 * 0x10 + 1
  }

  function Count(ext: U16): U8 {
    if Bit0(ext) then ext / 0x1000 * 16 + ext / 0x10 % 16 else ext / 0x1000
  }

  function U16Of(n: nat): U16 {
    n % 0x1_0000
  }

  /** The extension bits a sender sets. `payloadLen` is the length of the payload as a 16-bit number. */
  function Extensions(m: Message, payloadLen: U16): U16 {
    match m
    case Publish(block, isOriginator, _) => BlockTypeId(block.blockType) * 0x100 + Flag(isOriginator, 4)
    case AscPullAck(_, _) => U16Of(payloadLen + 0x1_0000 - 9)
    case AscPullReq(_, _) => U16Of(payloadLen + 0x1_0000 - 9)
    case BulkPull(_, _, count, ascending) => Flag(count > 0, 1) + Flag(ascending, 2)
    case ConfirmAck(vote, isRebroadcasted, _) => U16Of(CountBits(|vote.hashes|) + Flag(isRebroadcasted, 4))
    case ConfirmReq(roots) => U16Of(CountBits(|roots|) + NOT_A_BLOCK * 0x100)
    case FrontierReq(_, _, _, onlyConfirmed) => Flag(onlyConfirmed, 2)
    case NodeIdHandshake(h) => Flag(h.query.Some?, 1) + Flag(h.response.Some?, 2) + Flag(h.isV2, 4)
    case TelemetryAck(Some(data)) => U16Of(KNOWN_TELEMETRY + |data.unknown|)
    case _ => 0
  }

  /** The payload length a receiver expects. */
  function PayloadLength(t: MessageType, ext: U16): nat {
    match t
    case KeepaliveType => 8 * (16 + 2)
    case PublishType => SizeOfBlock(BlockTypeOf(BlockTypeField(ext)))
    case ConfirmReqType =>
      var block := BlockTypeOf(BlockTypeField(ext));
      if block.Some? then SizeOfBlock(block) else if BlockTypeField(ext) == NOT_A_BLOCK then Count(ext) * 64 else 0
    case ConfirmAckType => 32 + 64 + 8 + 32 * Count(ext)
    case BulkPullType => 64 + Flag(Bit0(ext), 8)
    case FrontierReqType => 32 + 4 + 4
    case NodeIdHandshakeType => Flag(Bit0(ext), 32) + Flag(Bit1(ext), 32 + 64 + Flag(Bit2(ext), 64))
    case BulkPullAccountType => 32 + 16 + 1
    case TelemetryAckType => ext % 0x400
    case AscPullReqType => 9 + ext
    case AscPullAckType => 9 + ext
    case _ => 0
  }

  function SizeOfBlock(t: Option<BlockType>): nat {
    if t.Some? then BlockSize(t.value) else 0
  }

  // ----- Writing payloads -----

  function PairBytes(p: (Bytes32, Bytes32)): (s: seq<byte>)
    ensures |s| == 64
  {
    p.0 + p.1
  }

  function PairsBytes(ps: seq<(Bytes32, Bytes32)>): (s: seq<byte>)
    ensures |s| == 64 * |ps|
  {
    if ps == [] then [] else PairBytes(ps[0]) + PairsBytes(ps[1..])
  }

  function HashesBytes(hs: seq<Bytes32>): (s: seq<byte>)
    ensures |s| == 32 * |hs|
  {
    if hs == [] then [] else hs[0] + HashesBytes(hs[1..])
  }

  function PeersBytes(ps: seq<Peer>): (s: seq<byte>)
    ensures |s| == 18 * |ps|
  {
    if ps == [] then [] else ps[0].ip + (LittleEndian(ps[0].port, 2) + PeersBytes(ps[1..]))
  }

  /** Blocks are preceded by their type and followed by a terminator. */
  function BlocksBytes(bs: seq<Block>): (s: seq<byte>)
    ensures 1 <= |s| <= 217 * |bs| + 1
  {
    if bs == [] then [NOT_A_BLOCK] else [BlockTypeId(bs[0].blockType)] + (bs[0].body + BlocksBytes(bs[1..]))
  }

  function HashTypeCode(t: HashType): U8 {
    if t.Account? then 0 else 1
  }

  function FlagsCode(f: BulkPullAccountFlags): U8 {
    match f case PendingHashAndAmount => 0 case PendingAddressOnly => 1 case PendingHashAmountAndAddress => 2
  }

  function AscPullReqBytes(r: AscPullQuery): (s: seq<byte>)
    ensures |s| <= 34
  {
    match r
    case BlocksReq(startType, start, count) => start + ([count] + [HashTypeCode(startType)])
    case AccountInfoReq(target, targetType) => target + [HashTypeCode(targetType)]
    case FrontiersReq(first, count) => first + BigEndian(count, 2)
  }

  function AccountInfoBytes(i: AccountInfo): (s: seq<byte>)
    ensures |s| == 144
  {
    i.account + (i.open + (i.head + (BigEndian(i.blockCount, 8) + (i.confFrontier + BigEndian(i.confHeight, 8)))))
  }

  function AscPullAckBytes(a: AscPullReply): (s: seq<byte>)
    ensures if a.FrontiersAck? then |s| == 64 * |a.frontiers| + 64 else |s| <= 64064
  {
    match a
    case BlocksAck(blocks) => BlocksBytes(blocks)
    case AccountInfoAck(info) => AccountInfoBytes(info)
    case FrontiersAck(frontiers) => PairsBytes(frontiers) + PairBytes((Zero32(), Zero32()))
  }

  function VoteBytes(v: Vote): (s: seq<byte>)
    ensures |s| == 104 + 32 * |v.hashes|
  {
    v.voter + (v.signature + (LittleEndian(v.timestamp, 8) + HashesBytes(v.hashes)))
  }

  function ResponseBytes(r: Response): (s: seq<byte>)
    ensures |s| == 96 + Flag(r.v2.Some?, 64)
  {
    match r.v2
    case Some(v2) => r.nodeId + (v2.salt + (v2.genesis + r.signature))
    case None => r.nodeId + r.signature
  }

  function TelemetryCounters(d: Telemetry): (s: seq<byte>)
    ensures |s| == 40
  {
    BigEndian(d.blockCount, 8) + (BigEndian(d.cementedCount, 8) + (BigEndian(d.uncheckedCount, 8) +
    (BigEndian(d.accountCount, 8) + BigEndian(d.bandwidthCap, 8))))
  }

  function VersionsBytes(v: Versions): (s: seq<byte>)
    ensures |s| == 5
  {
    [v.major, v.minor, v.patch, v.preRelease, v.maker]
  }

  function TelemetryBytes(d: Telemetry): (s: seq<byte>)
    ensures |s| == KNOWN_TELEMETRY + |d.unknown|
  {
    d.signature + (d.nodeId + (TelemetryCounters(d) + (BigEndian(d.peerCount, 4) + ([d.protocolVersion] +
    (BigEndian(d.uptime, 8) + (d.genesis + (VersionsBytes(d.versions) + (BigEndian(d.timestamp, 8) +
    (BigEndian(d.activeDifficulty, 8) + d.unknown)))))))))
  }

  function HandshakeBytes(h: Handshake): (s: seq<byte>)
  {
    (if h.query.Some? then h.query.value else []) + (if h.response.Some? then ResponseBytes(h.response.value) else [])
  }

  function AscPullReqCode(r: AscPullQuery): U8 {
    match r case BlocksReq(_, _, _) => 1 case AccountInfoReq(_, _) => 2 case FrontiersReq(_, _) => 3
  }

  function AscPullAckCode(a: AscPullReply): U8 {
    match a case BlocksAck(_) => 1 case AccountInfoAck(_) => 2 case FrontiersAck(_) => 3
  }

  function PayloadBytes(m: Message): (s: seq<byte>)
    ensures m.AscPullReq? ==> 9 <= |s| < 0x1_0000
    ensures m.AscPullAck? ==> |s| == 9 + |AscPullAckBytes(m.ack)|
  {
    match m
    case Keepalive(peers) => PeersBytes(peers)
    case Publish(block, _, _) => block.body
    case AscPullAck(id, ack) => [AscPullAckCode(ack)] + (BigEndian(id, 8) + AscPullAckBytes(ack))
    case AscPullReq(id, req) => [AscPullReqCode(req)] + (BigEndian(id, 8) + AscPullReqBytes(req))
    case BulkPull(start, end, count, _) =>
      start + (end + if count > 0 then [0] + (LittleEndian(count, 4) + [0, 0, 0]) else [])
    case BulkPullAccount(account, minimum, flags) => account + (BigEndian(minimum, 16) + [FlagsCode(flags)])
    case ConfirmAck(vote, _, _) => VoteBytes(vote)
    case ConfirmReq(roots) => PairsBytes(roots)
    case FrontierReq(start, age, count, _) => start + (LittleEndian(age, 4) + LittleEndian(count, 4))
    case NodeIdHandshake(h) => HandshakeBytes(h)
    case TelemetryAck(data) => if data.Some? then TelemetryBytes(data.value) else []
    case BulkPush => []
    case TelemetryReq => []
  }
}
