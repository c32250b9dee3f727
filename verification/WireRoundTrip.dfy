/** Payloads are read back exactly as they were written, and their length is what the header says. */
module WireRoundTrip {
  import opened Options
  import opened Bytes
  import opened Messages
  import opened Payloads

  /** The messages that survive the wire. Digests are set by the receiver; the flow info and scope of a peer,
      all-zero pairs, more than 1000 frontiers, a second protocol version that contradicts the flag, and telemetry
      beyond 1023 bytes cannot be expressed. */
  predicate WellFormed(m: Message) {
    match m
    case Keepalive(peers) => forall p :: p in peers ==> p.flowInfo == 0 && p.scopeId == 0
    case Publish(_, _, digest) => digest == 0
    case ConfirmAck(_, _, digest) => digest == 0
    case ConfirmReq(roots) => roots != [] && NoZeroPair(roots)
    case AscPullAck(_, FrontiersAck(frontiers)) => |frontiers| <= 1000 && NoZeroPair(frontiers)
    case NodeIdHandshake(h) => h.response.Some? ==> h.response.value.v2.Some? == h.isV2
    case TelemetryAck(Some(data)) => KNOWN_TELEMETRY + |data.unknown| < 0x400
    case _ => true
  }

  predicate NoZeroPair(ps: seq<(Bytes32, Bytes32)>) {
    forall p :: p in ps ==> !IsZeroPair(p)
  }

  function ExtensionsOf(m: Message): U16 {
    Extensions(m, U16Of(|PayloadBytes(m)|))
  }

  // ----- Lists -----

  lemma PairReadBack(p: (Bytes32, Bytes32), rest: seq<byte>)
    ensures ReadPair(PairBytes(p) + rest) == Some(Read(p, rest))
  {
    assert PairBytes(p) + rest == p.0 + (p.1 + rest);
    ReadBack32(p.0, p.1 + rest);
    ReadBack32(p.1, rest);
  }

  lemma {:induction false} RootsReadBack(ps: seq<(Bytes32, Bytes32)>)
    requires NoZeroPair(ps)
    ensures ReadRoots(PairsBytes(ps), |ps|) == Some(ps)
  {
    if ps != [] {
      PairReadBack(ps[0], PairsBytes(ps[1..]));
      RootsReadBack(ps[1..]);
      assert ps == [ps[0]] + ps[1..];
    }
  }

  lemma {:induction false} FrontiersReadBack(ps: seq<(Bytes32, Bytes32)>, limit: nat)
    requires NoZeroPair(ps) && |ps| <= limit
    ensures ReadFrontiers(PairsBytes(ps) + PairBytes((Zero32(), Zero32())), limit) == Some(ps)
    decreases |ps|
  {
    var end := PairBytes((Zero32(), Zero32()));
    if ps == [] {
      assert PairsBytes(ps) + end == end + [];
      PairReadBack((Zero32(), Zero32()), []);
    } else {
      assert PairsBytes(ps) + end == PairBytes(ps[0]) + (PairsBytes(ps[1..]) + end);
      PairReadBack(ps[0], PairsBytes(ps[1..]) + end);
      FrontiersReadBack(ps[1..], limit - 1);
      assert ps == [ps[0]] + ps[1..];
    }
  }

  lemma {:induction false} HashesReadBack(hs: seq<Bytes32>, limit: nat)
    requires |hs| <= limit
    ensures ReadHashes(HashesBytes(hs), limit) == Some(hs)
    decreases |hs|
  {
    if hs != [] {
      ReadBack32(hs[0], HashesBytes(hs[1..]));
      HashesReadBack(hs[1..], limit - 1);
      assert hs == [hs[0]] + hs[1..];
    }
  }

  lemma {:induction false} PeersReadBack(ps: seq<Peer>)
    requires forall p :: p in ps ==> p.flowInfo == 0 && p.scopeId == 0
    ensures ReadPeers(PeersBytes(ps), |ps|) == Some(ps)
  {
    if ps != [] {
      var rest := PeersBytes(ps[1..]);
      TakeAppended(ps[0].ip, LittleEndian(ps[0].port, 2) + rest);
      ReadBackU16(ps[0].port, rest);
      PeersReadBack(ps[1..]);
      assert ps == [ps[0]] + ps[1..];
    }
  }

  lemma BlockReadBack(b: Block, rest: seq<byte>)
    ensures BlockTypeOf(BlockTypeId(b.blockType)) == Some(b.blockType)
    ensures ReadBlock(b.blockType, b.body + rest) == Some(Read(b, rest))
  {
    TakeAppended(b.body, rest);
  }

  lemma ReadOneBlock(b: Block, rest: seq<byte>, limit: nat)
    requires limit > 0 && ReadBlocks(rest, limit - 1).Some?
    ensures ReadBlocks([BlockTypeId(b.blockType)] + (b.body + rest), limit) == Some([b] + ReadBlocks(rest, limit - 1).value)
  {
    hide ReadBlock, BlockTypeOf, BlockSize;
    BlockReadBack(b, rest);
    var s := [BlockTypeId(b.blockType)] + (b.body + rest);
    assert s[1..] == b.body + rest;
  }

  lemma {:induction false} BlocksReadBack(bs: seq<Block>, limit: nat)
    requires |bs| <= limit
    ensures ReadBlocks(BlocksBytes(bs), limit) == Some(bs)
    decreases |bs|
  {
    if bs != [] {
      hide ReadBlocks, BlockSize;
      BlocksReadBack(bs[1..], limit - 1);
      ReadOneBlock(bs[0], BlocksBytes(bs[1..]), limit);
      assert bs == [bs[0]] + bs[1..];
    }
  }

  // ----- Records -----

  lemma VoteReadBack(v: Vote)
    ensures DecodeVote(VoteBytes(v)) == Some(v)
  {
    var hashes := HashesBytes(v.hashes);
    var timestamp := LittleEndian(v.timestamp, 8) + hashes;
    ReadBack32(v.voter, v.signature + timestamp);
    ReadBack64(v.signature, timestamp);
    ReadBackU64(v.timestamp, hashes);
    HashesReadBack(v.hashes, 255);
  }

  lemma AccountInfoReadBack(i: AccountInfo)
    ensures DecodeAccountInfo(AccountInfoBytes(i)) == Some(i)
  {
    var height := BigEndian(i.confHeight, 8);
    var frontier := i.confFrontier + height;
    var count := BigEndian(i.blockCount, 8) + frontier;
    var head := i.head + count;
    ReadBack32(i.account, i.open + head);
    ReadBack32(i.open, head);
    ReadBack32(i.head, count);
    ReadBackU64(i.blockCount, frontier);
    ReadBack32(i.confFrontier, height);
    assert height == height + [];
    ReadBackU64(i.confHeight, []);
  }

  lemma AscPullAckReadBack(m: Message)
    requires m.AscPullAck? && WellFormed(m)
    ensures DecodeAscPullAck(PayloadBytes(m)) == Some(m)
  {
    hide AscPullAckBytes;
    var AscPullAck(id, ack) := m;
    var body := AscPullAckBytes(ack);
    ReadBackU8(AscPullAckCode(ack), BigEndian(id, 8) + body);
    ReadBackU64(id, body);
    AckBodyReadBack(ack);
  }

  lemma AckBodyReadBack(ack: AscPullReply)
    requires ack.FrontiersAck? ==> |ack.frontiers| <= 1000 && NoZeroPair(ack.frontiers)
    ensures ack.BlocksAck? ==> ReadBlocks(AscPullAckBytes(ack), 128) == Some(ack.blocks)
    ensures ack.AccountInfoAck? ==> DecodeAccountInfo(AscPullAckBytes(ack)) == Some(ack.info)
    ensures ack.FrontiersAck? ==> ReadFrontiers(AscPullAckBytes(ack), 1000) == Some(ack.frontiers)
  {
    match ack
    case BlocksAck(blocks) => BlocksReadBack(blocks, 128);
    case AccountInfoAck(info) => AccountInfoReadBack(info);
    case FrontiersAck(frontiers) => FrontiersReadBack(frontiers, 1000);
  }

  lemma AscPullReqReadBack(id: U64, req: AscPullQuery)
    ensures DecodeAscPullReq(PayloadBytes(AscPullReq(id, req))) == Some(AscPullReq(id, req))
  {
    hide AscPullReqBytes, ReadHashType, BigEndian, ReadU64Be, ReadU16Be, ReadU8, Read32;
    var body := AscPullReqBytes(req);
    ReadBackU8(AscPullReqCode(req), BigEndian(id, 8) + body);
    ReadBackU64(id, body);
    ReqBodyReadBack(req);
  }

  lemma ReqBodyReadBack(req: AscPullQuery)
    ensures
      var start := Read32(AscPullReqBytes(req));
      start.Some? &&
      match req
      case BlocksReq(startType, first, count) =>
        && start.value.value == first
        && ReadU8(start.value.rest) == Some(Read(count, [HashTypeCode(startType)]))
        && ReadHashType([HashTypeCode(startType)]) == Some(startType)
      case AccountInfoReq(target, targetType) => start.value.value == target && ReadHashType(start.value.rest) == Some(targetType)
      case FrontiersReq(first, count) => start.value.value == first && ReadU16Be(start.value.rest) == Some(Read(count, []))
  {
    match req
    case BlocksReq(startType, start, count) =>
      ReadBack32(start, [count] + [HashTypeCode(startType)]);
    case AccountInfoReq(target, targetType) =>
      ReadBack32(target, [HashTypeCode(targetType)]);
    case FrontiersReq(first, count) =>
      ReadBack32(first, BigEndian(count, 2));
      assert BigEndian(count, 2) == BigEndian(count, 2) + [];
      ReadBackU16(count, []);
  }

  lemma BulkPullBits(m: Message)
    requires m.BulkPull?
    ensures Bit0(ExtensionsOf(m)) == (m.pullCount > 0) && Bit1(ExtensionsOf(m)) == m.ascending
  {
    hide PayloadBytes;
  }

  lemma BulkPullReadBack(m: Message)
    requires m.BulkPull?
    ensures DecodeBulkPull(PayloadBytes(m), ExtensionsOf(m)) == Some(m)
  {
    BulkPullBits(m);
    hide ExtensionsOf, Bit0, Bit1, LittleEndian, Read32, ReadU8, ReadU32Le;
    var tail := if m.pullCount > 0 then [0] + (LittleEndian(m.pullCount, 4) + [0, 0, 0]) else [];
    ReadBack32(m.pullStart, m.end + tail);
    ReadBack32(m.end, tail);
    if m.pullCount > 0 {
      ReadBackU8(0, LittleEndian(m.pullCount, 4) + [0, 0, 0]);
      ReadBackU32(m.pullCount, [0, 0, 0]);
    }
  }

  lemma BulkPullAccountReadBack(m: Message)
    requires m.BulkPullAccount?
    ensures DecodeBulkPullAccount(PayloadBytes(m)) == Some(m)
  {
    ReadBack32(m.account, BigEndian(m.minimumAmount, 16) + [FlagsCode(m.flags)]);
    ReadBackU128(m.minimumAmount, [FlagsCode(m.flags)]);
  }

  lemma FrontierReqReadBack(m: Message)
    requires m.FrontierReq?
    ensures DecodeFrontierReq(PayloadBytes(m), ExtensionsOf(m)) == Some(m)
  {
    var count := LittleEndian(m.frontierReqCount, 4);
    ReadBack32(m.frontierStart, LittleEndian(m.age, 4) + count);
    ReadBackU32(m.age, count);
    assert count == count + [];
    ReadBackU32(m.frontierReqCount, []);
  }

  lemma HandshakeBits(h: Handshake)
    ensures
      var ext := ExtensionsOf(NodeIdHandshake(h));
      Bit0(ext) == h.query.Some? && Bit1(ext) == h.response.Some? && Bit2(ext) == h.isV2
  {
  }

  lemma ResponseReadBack(r: Response, ext: U16)
    requires r.v2.Some? == Bit2(ext)
    ensures DecodeResponse(ResponseBytes(r), ext) == Some(r)
  {
    assert r.signature == r.signature + [];
    ReadBack64(r.signature, []);
    match r.v2
    case Some(v2) =>
      ReadBack32(r.nodeId, v2.salt + (v2.genesis + r.signature));
      ReadBack32(v2.salt, v2.genesis + r.signature);
      ReadBack32(v2.genesis, r.signature);
    case None =>
      ReadBack32(r.nodeId, r.signature);
  }

  lemma HandshakeReadBack(h: Handshake)
    requires WellFormed(NodeIdHandshake(h))
    ensures DecodeHandshake(HandshakeBytes(h), ExtensionsOf(NodeIdHandshake(h))) == Some(h)
  {
    var ext := ExtensionsOf(NodeIdHandshake(h));
    HandshakeBits(h);
    var answer := if h.response.Some? then ResponseBytes(h.response.value) else [];
    if h.response.Some? {
      ResponseReadBack(h.response.value, ext);
    }
    if h.query.Some? {
      ReadBack32(h.query.value, answer);
    } else {
      assert HandshakeBytes(h) == answer;
    }
  }

  lemma CountersReadBack(d: Telemetry, rest: seq<byte>)
    ensures ReadCounters(TelemetryCounters(d) + rest) ==
            Some(Read(Counters(d.blockCount, d.cementedCount, d.uncheckedCount, d.accountCount, d.bandwidthCap), rest))
  {
    var e := BigEndian(d.bandwidthCap, 8) + rest;
    var dd := BigEndian(d.accountCount, 8) + e;
    var c := BigEndian(d.uncheckedCount, 8) + dd;
    var b := BigEndian(d.cementedCount, 8) + c;
    assert TelemetryCounters(d) + rest == BigEndian(d.blockCount, 8) + b;
    ReadBackU64(d.blockCount, b);
    ReadBackU64(d.cementedCount, c);
    ReadBackU64(d.uncheckedCount, dd);
    ReadBackU64(d.accountCount, e);
    ReadBackU64(d.bandwidthCap, rest);
  }

  lemma TelemetryReadBack(d: Telemetry)
    ensures DecodeTelemetry(TelemetryBytes(d), |TelemetryBytes(d)|) == Some(d)
  {
    hide TelemetryCounters, VersionsBytes, ReadCounters, ReadVersions, BigEndian;
    var s9 := BigEndian(d.activeDifficulty, 8) + d.unknown;
    var s8 := BigEndian(d.timestamp, 8) + s9;
    var s7 := VersionsBytes(d.versions) + s8;
    var s6 := d.genesis + s7;
    var s5 := BigEndian(d.uptime, 8) + s6;
    var s4 := [d.protocolVersion] + s5;
    var s3 := BigEndian(d.peerCount, 4) + s4;
    var s2 := TelemetryCounters(d) + s3;
    ReadBack64(d.signature, d.nodeId + s2);
    ReadBack32(d.nodeId, s2);
    CountersReadBack(d, s3);
    ReadBackU32(d.peerCount, s4);
    ReadBackU8(d.protocolVersion, s5);
    ReadBackU64(d.uptime, s6);
    ReadBack32(d.genesis, s7);
    VersionsReadBack(d.versions, s8);
    ReadBackU64(d.timestamp, s9);
    ReadBackU64(d.activeDifficulty, d.unknown);
    assert d.unknown == d.unknown + [];
    TakeAppended(d.unknown, []);
  }

  lemma VersionsReadBack(v: Versions, rest: seq<byte>)
    ensures ReadVersions(VersionsBytes(v) + rest) == Some(Read(v, rest))
  {
    TakeAppended(VersionsBytes(v), rest);
  }

  // ----- Counts and lengths -----

  /** The four-bit fields of a 16-bit number. */
  lemma Nibbles(a: nat, b: nat, c: nat, d: nat)
    requires a < 16 && b < 16 && c < 16 && d < 16
    ensures
      var n := a * 0x1000 + b * 0x100 + c * 0x10 + d;
      n < 0x1_0000 && n / 0x1000 == a && n / 0x100 % 16 == b && n / 0x10 % 16 == c && n % 16 == d
  {
    var n := a * 0x1000 + b * 0x100 + c * 0x10 + d;
    assert n / 0x10 == a * 0x100 + b * 0x10 + c;
    assert n / 0x100 == a * 0x10 + b;
  }

  lemma LowBits(n: nat)
    ensures n % 2 == n % 16 % 2
    ensures n / 4 % 2 == n % 16 / 4 % 2
  {
    var q, r := n / 16, n % 16;
    Half(n, 8 * q + r / 2, r % 2);
    Quarter(n, 4 * q + r / 4, r % 4);
    Half(4 * q + r / 4, 2 * q + r / 4 / 2, r / 4 % 2);
  }

  lemma Half(n: nat, q: nat, r: nat)
    requires r < 2 && n == 2 * q + r
    ensures n / 2 == q && n % 2 == r
  {
  }

  lemma Quarter(n: nat, q: nat, r: nat)
    requires r < 4 && n == 4 * q + r
    ensures n / 4 == q && n % 4 == r
  {
  }

  /** A count survives next to a block type and a flag in bit 2. */
  lemma CountReadBack(count: U8, blockType: nat, flag: bool)
    requires blockType < 16
    ensures
      var ext := CountBits(count) + blockType * 0x100 + Flag(flag, 4);
      ext < 0x1_0000 && Count(ext) == count && BlockTypeField(ext) == blockType && Bit2(ext) == flag
  {
    if count < 16 {
      SmallCountReadBack(count, blockType, flag);
    } else {
      LargeCountReadBack(count / 16, count % 16, blockType, flag);
    }
  }

  lemma SmallCountReadBack(count: U8, blockType: nat, flag: bool)
    requires blockType < 16 && count < 16
    ensures
      var ext := count * 0x1000 + blockType * 0x100 + Flag(flag, 4);
      ext < 0x1_0000 && Count(ext) == count && BlockTypeField(ext) == blockType && Bit2(ext) == flag
  {
    var low := Flag(flag, 4);
    Nibbles(count, blockType, 0, low);
    LowBits(count * 0x1000 + blockType * 0x100 + low);
  }

  lemma LargeCountReadBack(high: nat, low: nat, blockType: nat, flag: bool)
    requires blockType < 16 && high < 16 && low < 16
    ensures
      var ext := high * 0x1000 + low * 0x10 + 1 + blockType * 0x100 + Flag(flag, 4);
      ext < 0x1_0000 && Count(ext) == high * 16 + low && BlockTypeField(ext) == blockType && Bit2(ext) == flag
  {
    Nibbles(high, blockType, low, 1 + Flag(flag, 4));
    LowBits(high * 0x1000 + blockType * 0x100 + low * 0x10 + 1 + Flag(flag, 4));
  }

  lemma PublishBits(m: Message)
    requires m.Publish?
    ensures BlockTypeField(ExtensionsOf(m)) == BlockTypeId(m.block.blockType) && Bit2(ExtensionsOf(m)) == m.isOriginator
  {
    Nibbles(0, BlockTypeId(m.block.blockType), 0, Flag(m.isOriginator, 4));
    LowBits(ExtensionsOf(m));
  }

  predicate Agrees(m: Message) {
    PayloadLength(TypeOf(m), ExtensionsOf(m)) == |PayloadBytes(m)|
  }

  lemma ListLengthAgrees(m: Message)
    requires m.ConfirmAck? || m.ConfirmReq?
    ensures Agrees(m)
  {
    hide ExtensionsOf, Count, VoteBytes, PairsBytes, BlockTypeField;
    if m.ConfirmAck? {
      ConfirmAckBits(m);
    } else {
      ConfirmReqBits(m);
    }
  }

  lemma HandshakeLengthAgrees(m: Message)
    requires m.NodeIdHandshake? && WellFormed(m)
    ensures Agrees(m)
  {
    HandshakeBits(m.handshake);
    hide ExtensionsOf, ResponseBytes, Bit0, Bit1, Bit2;
  }

  lemma PublishLengthAgrees(m: Message)
    requires m.Publish?
    ensures Agrees(m)
  {
    hide ExtensionsOf, BlockTypeField;
    PublishBits(m);
  }

  lemma BulkPullLengthAgrees(m: Message)
    requires m.BulkPull?
    ensures Agrees(m)
  {
    hide ExtensionsOf, Bit0, LittleEndian;
    BulkPullBits(m);
  }

  lemma PlainLengthAgrees(m: Message)
    requires m.AscPullAck? || m.AscPullReq? || m.TelemetryAck? || m.Keepalive? || m.FrontierReq? || m.BulkPullAccount?
    requires WellFormed(m)
    ensures Agrees(m)
  {
    hide NoZeroPair, PeersBytes, AscPullAckBytes, AscPullReqBytes, TelemetryBytes, BigEndian, LittleEndian;
  }

  /** The subtraction in the extension bits never goes below zero, even where the length itself wraps around. */
  lemma NoUnderflow(m: Message)
    requires m.AscPullAck? || m.AscPullReq?
    ensures U16Of(|PayloadBytes(m)|) >= 9
  {
    hide AscPullReqBytes, BlocksBytes, AccountInfoBytes, PairsBytes, BigEndian;
    if m.AscPullAck? && m.ack.FrontiersAck? {
      var n := |m.ack.frontiers| + 1;
      Wrapped(9 + 64 * n, n / 1024, 9 + 64 * (n % 1024));
    }
  }

  lemma Wrapped(n: nat, q: nat, r: nat)
    requires r < 0x1_0000 && n == 0x1_0000 * q + r
    ensures U16Of(n) == r
  {
  }

  /** The length the receiver computes from the extension bits is the length of the payload. */
  lemma LengthAgrees(m: Message)
    requires WellFormed(m)
    ensures PayloadLength(TypeOf(m), ExtensionsOf(m)) == |PayloadBytes(m)|
  {
    hide WellFormed, ExtensionsOf;
    match m
    case ConfirmAck(_, _, _) => ListLengthAgrees(m);
    case ConfirmReq(_) => ListLengthAgrees(m);
    case NodeIdHandshake(_) => HandshakeLengthAgrees(m);
    case Publish(_, _, _) => PublishLengthAgrees(m);
    case BulkPull(_, _, _, _) => BulkPullLengthAgrees(m);
    case BulkPush =>
    case TelemetryReq =>
    case _ => PlainLengthAgrees(m);
  }

  /** Every well-formed payload is read back as the message it was written from. */
  lemma PayloadReadBack(m: Message)
    requires WellFormed(m)
    ensures DecodeMessage(TypeOf(m), ExtensionsOf(m), PayloadBytes(m), 0) == Some(m)
  {
    if m.Keepalive? {
      PeersReadBack(m.peers);
      hide WellFormed, ReadPeers, PeersBytes;
    } else if m.ConfirmAck? {
      ConfirmAckReadBack(m);
    } else if m.NodeIdHandshake? {
      HandshakeReadBack(m.handshake);
      hide WellFormed, DecodeHandshake, HandshakeBytes, ExtensionsOf;
    } else {
      OtherPayloadReadBack(m);
    }
  }

  lemma OtherPayloadReadBack(m: Message)
    requires WellFormed(m) && !m.Keepalive? && !m.ConfirmAck? && !m.NodeIdHandshake?
    ensures DecodeMessage(TypeOf(m), ExtensionsOf(m), PayloadBytes(m), 0) == Some(m)
  {
    hide DecodePublish, DecodeAscPullAck, DecodeAscPullReq, DecodeBulkPull, DecodeBulkPullAccount, DecodeFrontierReq, DecodeVote,
         DecodeConfirmReq, DecodeHandshake, DecodeTelemetryAck, ReadPeers, PeersBytes, VoteBytes, PairsBytes, HandshakeBytes,
         ExtensionsOf, WellFormed;
    match m
    case Publish(_, _, _) => PublishReadBack(m);
    case AscPullAck(_, _) => AscPullAckReadBack(m);
    case AscPullReq(id, req) => AscPullReqReadBack(id, req);
    case BulkPull(_, _, _, _) => BulkPullReadBack(m);
    case BulkPullAccount(_, _, _) => BulkPullAccountReadBack(m);
    case ConfirmReq(roots) => ConfirmReqReadBack(roots);
    case FrontierReq(_, _, _, _) => FrontierReqReadBack(m);
    case TelemetryAck(data) => TelemetryAckReadBack(data);
    case BulkPush =>
    case TelemetryReq =>
  }

  lemma ConfirmAckReadBack(m: Message)
    requires m.ConfirmAck? && m.ackDigest == 0
    ensures DecodeMessage(TypeOf(m), ExtensionsOf(m), PayloadBytes(m), 0) == Some(m)
  {
    hide ExtensionsOf, DecodeVote, VoteBytes, Bit2;
    ConfirmAckBits(m);
    VoteReadBack(m.vote);
  }

  lemma ConfirmAckBits(m: Message)
    requires m.ConfirmAck?
    ensures Bit2(ExtensionsOf(m)) == m.isRebroadcasted && Count(ExtensionsOf(m)) == |m.vote.hashes|
  {
    hide PayloadBytes, CountBits, Count, Bit2;
    CountReadBack(|m.vote.hashes|, 0, m.isRebroadcasted);
  }

  lemma ConfirmReqBits(m: Message)
    requires m.ConfirmReq?
    ensures BlockTypeField(ExtensionsOf(m)) == NOT_A_BLOCK && Count(ExtensionsOf(m)) == |m.roots|
  {
    hide PayloadBytes, CountBits, Count, BlockTypeField;
    CountReadBack(|m.roots|, NOT_A_BLOCK, false);
  }

  lemma PublishReadBack(m: Message)
    requires m.Publish? && WellFormed(m)
    ensures DecodePublish(PayloadBytes(m), ExtensionsOf(m), 0) == Some(m)
  {
    PublishBits(m);
    assert m.block.body == m.block.body + [];
    TakeAppended(m.block.body, []);
  }

  lemma ConfirmReqReadBack(roots: Roots)
    requires WellFormed(ConfirmReq(roots))
    ensures DecodeConfirmReq(PairsBytes(roots), ExtensionsOf(ConfirmReq(roots))) == Some(ConfirmReq(roots))
  {
    hide CountBits, Count, ExtensionsOf, ReadRoots, PairsBytes;
    ConfirmReqBits(ConfirmReq(roots));
    RootsReadBack(roots);
  }

  lemma TelemetryAckReadBack(data: Option<Telemetry>)
    requires WellFormed(TelemetryAck(data))
    ensures DecodeTelemetryAck(PayloadBytes(TelemetryAck(data)), ExtensionsOf(TelemetryAck(data))) == Some(TelemetryAck(data))
  {
    hide TelemetryBytes, DecodeTelemetry;
    PlainLengthAgrees(TelemetryAck(data));
    if data.Some? {
      TelemetryReadBack(data.value);
    }
  }

  lemma OnlyWellFormedTelemetry(m: Message, s: seq<byte>)
    requires m.TelemetryAck? && DecodeTelemetryAck(s, ExtensionsOf(m)) == Some(m)
    ensures WellFormed(m)
  {
    hide ExtensionsOf, DecodeTelemetry;
  }

  lemma OnlyWellFormedAck(m: Message, s: seq<byte>)
    requires m.AscPullAck? && DecodeAscPullAck(s) == Some(m)
    ensures WellFormed(m)
  {
    hide ReadFrontiers, ReadBlocks, DecodeAccountInfo, ReadU64Be;
  }

  lemma OnlyWellFormedRoots(m: Message, s: seq<byte>)
    requires m.ConfirmReq? && DecodeConfirmReq(s, ExtensionsOf(m)) == Some(m)
    ensures WellFormed(m)
  {
    hide ExtensionsOf, ReadRoots, Count;
  }

  lemma OnlyWellFormedHandshake(m: Message, s: seq<byte>)
    requires m.NodeIdHandshake? && DecodeHandshake(s, ExtensionsOf(m)) == Some(m.handshake)
    ensures WellFormed(m)
  {
    hide ExtensionsOf, DecodeHandshake;
  }

  /** No payload at all is read as a message that is not well formed. */
  lemma OnlyWellFormedIsRead(m: Message, s: seq<byte>)
    requires DecodeMessage(TypeOf(m), ExtensionsOf(m), s, 0) == Some(m)
    ensures WellFormed(m)
  {
    hide DecodeAscPullReq, DecodeBulkPull, DecodeBulkPullAccount, DecodeFrontierReq, DecodeVote, DecodeHandshake, DecodeTelemetryAck,
         DecodeConfirmReq, DecodeAscPullAck, ReadPeers, ExtensionsOf, NoZeroPair;
    match m
    case NodeIdHandshake(_) => OnlyWellFormedHandshake(m, s);
    case TelemetryAck(_) => OnlyWellFormedTelemetry(m, s);
    case AscPullAck(_, _) => OnlyWellFormedAck(m, s);
    case ConfirmReq(_) => OnlyWellFormedRoots(m, s);
    case _ =>
  }
}
