/** Reading message payloads. A failed read makes the whole payload invalid; bytes behind the last field are ignored. */
module Payloads {
  import opened Options
  import opened Bytes
  import opened Messages

  function ReadPair(s: seq<byte>): Option<Read<(Bytes32, Bytes32)>> {
    var a :- Read32(s);
    var b :- Read32(a.rest);
    Some(Read((a.value, b.value), b.rest))
  }

  predicate IsZeroPair(p: (Bytes32, Bytes32)) {
    p == (Zero32(), Zero32())
  }

  /** The pairs of a confirm request, without those that are all zero. */
  function ReadRoots(s: seq<byte>, count: nat): (roots: Option<seq<(Bytes32, Bytes32)>>)
    ensures roots.Some? ==> |roots.value| <= count && forall p :: p in roots.value ==> !IsZeroPair(p)
  {
    if count == 0 then Some([]) else
      var p :- ReadPair(s);
      var rest :- ReadRoots(p.rest, count - 1);
      Some(if IsZeroPair(p.value) then rest else [p.value] + rest)
  }

  function DecodeConfirmReq(s: seq<byte>, ext: U16): (m: Option<Message>)
    ensures m.Some? ==> m.value.ConfirmReq?
  {
    var roots :- ReadRoots(s, Count(ext));
    if roots == [] || |roots| != Count(ext) then None else Some(ConfirmReq(roots))
  }

  /** Hashes up to the end of the payload, at most `limit` of them. */
  function ReadHashes(s: seq<byte>, limit: nat): (hashes: Option<seq<Bytes32>>)
    ensures hashes.Some? ==> |hashes.value| <= limit
  {
    if s == [] || limit == 0 then Some([]) else
      var h :- Read32(s);
      var rest :- ReadHashes(h.rest, limit - 1);
      Some([h.value] + rest)
  }

  function DecodeVote(s: seq<byte>): Option<Vote> {
    var voter :- Read32(s);
    var signature :- Read64(voter.rest);
    var timestamp :- ReadU64Le(signature.rest);
    var hashes :- ReadHashes(timestamp.rest, 255);
    Some(Vote(voter.value, signature.value, timestamp.value, hashes))
  }

  function ReadPeers(s: seq<byte>, count: nat): (peers: Option<seq<Peer>>)
    ensures peers.Some? ==> |peers.value| == count && forall p :: p in peers.value ==> p.flowInfo == 0 && p.scopeId == 0
  {
    if count == 0 then Some([]) else
      var ip :- Take(s, 16);
      var port :- ReadU16Le(ip.rest);
      var rest :- ReadPeers(port.rest, count - 1);
      Some([Peer(ip.value, port.value, 0, 0)] + rest)
  }

  /** Blocks up to the terminator or the end of the payload, failing beyond `limit`. */
  function ReadBlocks(s: seq<byte>, limit: nat): (blocks: Option<seq<Block>>)
    ensures blocks.Some? ==> |blocks.value| <= limit
    decreases |s|
  {
    if s == [] || s[0] == NOT_A_BLOCK then Some([]) else
      var t :- BlockTypeOf(s[0]);
      var block :- ReadBlock(t, s[1..]);
      if limit == 0 then None else
      var rest :- ReadBlocks(block.rest, limit - 1);
      Some([block.value] + rest)
  }

  /** Frontiers up to the all-zero terminator, at most `limit` of them. */
  function ReadFrontiers(s: seq<byte>, limit: nat): (frontiers: Option<seq<(Bytes32, Bytes32)>>)
    ensures frontiers.Some? ==> |frontiers.value| <= limit && forall p :: p in frontiers.value ==> !IsZeroPair(p)
  {
    if limit == 0 then Some([]) else
      var p :- ReadPair(s);
      if IsZeroPair(p.value) then Some([]) else
      var rest :- ReadFrontiers(p.rest, limit - 1);
      Some([p.value] + rest)
  }

  function DecodeAccountInfo(s: seq<byte>): Option<AccountInfo> {
    var account :- Read32(s);
    var open :- Read32(account.rest);
    var head :- Read32(open.rest);
    var blockCount :- ReadU64Be(head.rest);
    var confFrontier :- Read32(blockCount.rest);
    var confHeight :- ReadU64Be(confFrontier.rest);
    Some(AccountInfo(account.value, open.value, head.value, blockCount.value, confFrontier.value, confHeight.value))
  }

  function DecodeAscPullAck(s: seq<byte>): (m: Option<Message>)
    ensures m.Some? ==> m.value.AscPullAck?
  {
    var code :- ReadU8(s);
    if code.value == 0 || code.value > 3 then None else
    var id :- ReadU64Be(code.rest);
    if code.value == 1 then
      var blocks :- ReadBlocks(id.rest, 128);
      Some(AscPullAck(id.value, BlocksAck(blocks)))
    else if code.value == 2 then
      var info :- DecodeAccountInfo(id.rest);
      Some(AscPullAck(id.value, AccountInfoAck(info)))
    else
      var frontiers :- ReadFrontiers(id.rest, 1000);
      Some(AscPullAck(id.value, FrontiersAck(frontiers)))
  }

  function ReadHashType(s: seq<byte>): Option<HashType> {
    var code :- ReadU8(s);
    if code.value == 0 then Some(HashType.Account) else if code.value == 1 then Some(BlockHash) else None
  }

  function DecodeAscPullReq(s: seq<byte>): (m: Option<Message>)
    ensures m.Some? ==> m.value.AscPullReq?
  {
    var code :- ReadU8(s);
    if code.value == 0 || code.value > 3 then None else
    var id :- ReadU64Be(code.rest);
    var start :- Read32(id.rest);
    if code.value == 1 then
      var count :- ReadU8(start.rest);
      var startType :- ReadHashType(count.rest);
      Some(AscPullReq(id.value, BlocksReq(startType, start.value, count.value)))
    else if code.value == 2 then
      var targetType :- ReadHashType(start.rest);
      Some(AscPullReq(id.value, AccountInfoReq(start.value, targetType)))
    else
      var count :- ReadU16Be(start.rest);
      Some(AscPullReq(id.value, FrontiersReq(start.value, count.value)))
  }

  function DecodeBulkPull(s: seq<byte>, ext: U16): (m: Option<Message>)
    ensures m.Some? ==> m.value.BulkPull?
  {
    var start :- Read32(s);
    var end :- Read32(start.rest);
    if Bit0(ext) then
      var first :- ReadU8(end.rest);
      var count :- ReadU32Le(first.rest);
      var padding :- Take(count.rest, 3);
      if first.value != 0 then None else Some(BulkPull(start.value, end.value, count.value, Bit1(ext)))
    else Some(BulkPull(start.value, end.value, 0, Bit1(ext)))
  }

  function DecodeBulkPullAccount(s: seq<byte>): (m: Option<Message>)
    ensures m.Some? ==> m.value.BulkPullAccount?
  {
    var account :- Read32(s);
    var minimum :- ReadU128Be(account.rest);
    var flags :- ReadU8(minimum.rest);
    if flags.value > 2 then None else
      Some(BulkPullAccount(account.value, minimum.value,
                           if flags.value == 0 then PendingHashAndAmount
                           else if flags.value == 1 then PendingAddressOnly else PendingHashAmountAndAddress))
  }

  function DecodeFrontierReq(s: seq<byte>, ext: U16): (m: Option<Message>)
    ensures m.Some? ==> m.value.FrontierReq?
  {
    var start :- Read32(s);
    var age :- ReadU32Le(start.rest);
    var count :- ReadU32Le(age.rest);
    Some(FrontierReq(start.value, age.value, count.value, Bit1(ext)))
  }

  function DecodeResponse(s: seq<byte>, ext: U16): (r: Option<Response>)
    ensures r.Some? ==> r.value.v2.Some? == Bit2(ext)
  {
    var nodeId :- Read32(s);
    if Bit2(ext) then
      var salt :- Read32(nodeId.rest);
      var genesis :- Read32(salt.rest);
      var signature :- Read64(genesis.rest);
      Some(Response(nodeId.value, signature.value, Some(V2Payload(salt.value, genesis.value))))
    else
      var signature :- Read64(nodeId.rest);
      Some(Response(nodeId.value, signature.value, None))
  }

  function DecodeHandshake(s: seq<byte>, ext: U16): (h: Option<Handshake>)
    ensures h.Some? && h.value.response.Some? ==> h.value.response.value.v2.Some? == h.value.isV2
  {
    if Bit0(ext) then
      var query :- Read32(s);
      DecodeAnswer(Some(query.value), query.rest, ext)
    else DecodeAnswer(None, s, ext)
  }

  function DecodeAnswer(query: Option<Bytes32>, s: seq<byte>, ext: U16): (h: Option<Handshake>)
    ensures h.Some? && h.value.response.Some? ==> h.value.response.value.v2.Some? == h.value.isV2
  {
    if Bit1(ext) then
      var response :- DecodeResponse(s, ext);
      Some(Handshake(query, Some(response), Bit2(ext)))
    else Some(Handshake(query, None, Bit2(ext)))
  }

  datatype Counters = Counters(blockCount: U64, cementedCount: U64, uncheckedCount: U64, accountCount: U64, bandwidthCap: U64)

  function ReadCounters(s: seq<byte>): Option<Read<Counters>> {
    var a :- ReadU64Be(s);
    var b :- ReadU64Be(a.rest);
    var c :- ReadU64Be(b.rest);
    var d :- ReadU64Be(c.rest);
    var e :- ReadU64Be(d.rest);
    Some(Read(Counters(a.value, b.value, c.value, d.value, e.value), e.rest))
  }

  function ReadVersions(s: seq<byte>): Option<Read<Versions>> {
    var r :- Take(s, 5);
    Some(Read(Versions(r.value[0], r.value[1], r.value[2], r.value[3], r.value[4]), r.rest))
  }

  function DecodeTelemetry(s: seq<byte>, payloadLen: nat): (t: Option<Telemetry>)
    ensures t.Some? ==> |t.value.unknown| == if payloadLen > KNOWN_TELEMETRY then payloadLen - KNOWN_TELEMETRY else 0
  {
    var signature :- Read64(s);
    var nodeId :- Read32(signature.rest);
    var counters :- ReadCounters(nodeId.rest);
    var peerCount :- ReadU32Be(counters.rest);
    var protocolVersion :- ReadU8(peerCount.rest);
    var uptime :- ReadU64Be(protocolVersion.rest);
    var genesis :- Read32(uptime.rest);
    var versions :- ReadVersions(genesis.rest);
    var timestamp :- ReadU64Be(versions.rest);
    var difficulty :- ReadU64Be(timestamp.rest);
    var unknown :- Take(difficulty.rest, if payloadLen > KNOWN_TELEMETRY then payloadLen - KNOWN_TELEMETRY else 0);
    var c := counters.value;
    Some(Telemetry(signature.value, nodeId.value, c.blockCount, c.cementedCount, c.uncheckedCount, c.accountCount,
                   c.bandwidthCap, peerCount.value, protocolVersion.value, uptime.value, genesis.value, versions.value,
                   timestamp.value, difficulty.value, unknown.value))
  }

  function DecodeTelemetryAck(s: seq<byte>, ext: U16): (m: Option<Message>)
    ensures m.Some? ==> m.value.TelemetryAck?
  {
    var payloadLen := PayloadLength(TelemetryAckType, ext);
    if payloadLen == 0 then Some(TelemetryAck(None)) else
      var data :- DecodeTelemetry(s, payloadLen);
      Some(TelemetryAck(Some(data)))
  }

  function DecodePublish(s: seq<byte>, ext: U16, digest: nat): (m: Option<Message>)
    ensures m.Some? ==> m.value.Publish?
  {
    var t :- BlockTypeOf(BlockTypeField(ext));
    var block :- ReadBlock(t, s);
    Some(Publish(block.value, Bit2(ext), digest))
  }

  function DecodeMessage(t: MessageType, ext: U16, s: seq<byte>, digest: nat): (m: Option<Message>)
    ensures m.Some? ==> TypeOf(m.value) == t
  {
    match t
    case KeepaliveType =>
      var peers :- ReadPeers(s, 8);
      Some(Keepalive(peers))
    case PublishType => DecodePublish(s, ext, digest)
    case AscPullAckType => DecodeAscPullAck(s)
    case AscPullReqType => DecodeAscPullReq(s)
    case BulkPullType => DecodeBulkPull(s, ext)
    case BulkPullAccountType => DecodeBulkPullAccount(s)
    case BulkPushType => Some(BulkPush)
    case ConfirmAckType =>
      var vote :- DecodeVote(s);
      Some(ConfirmAck(vote, Bit2(ext), digest))
    case ConfirmReqType => DecodeConfirmReq(s, ext)
    case FrontierReqType => DecodeFrontierReq(s, ext)
    case NodeIdHandshakeType =>
      var h :- DecodeHandshake(s, ext);
      Some(NodeIdHandshake(h))
    case TelemetryAckType => DecodeTelemetryAck(s, ext)
    case TelemetryReqType => Some(TelemetryReq)
    case InvalidType => None
    case NotAType => None
  }
}
