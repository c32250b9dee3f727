/** A payload that is read as a message is what that message is written as. */
module CanonicalForm {
  import opened Options
  import opened Bytes
  import opened Messages
  import opened Payloads
  import opened WireRoundTrip

  // ----- Reading one value -----

  lemma Is32(s: seq<byte>)
    ensures Read32(s).Some? ==> s == Read32(s).value.value + Read32(s).value.rest
  {
  }

  lemma Is64(s: seq<byte>)
    ensures Read64(s).Some? ==> s == Read64(s).value.value + Read64(s).value.rest
  {
  }

  lemma IsU8(s: seq<byte>)
    ensures ReadU8(s).Some? ==> s == [ReadU8(s).value.value] + ReadU8(s).value.rest
  {
  }

  lemma IsU16(s: seq<byte>)
    ensures ReadU16Be(s).Some? ==> s == BigEndian(ReadU16Be(s).value.value, 2) + ReadU16Be(s).value.rest
    ensures ReadU16Le(s).Some? ==> s == LittleEndian(ReadU16Le(s).value.value, 2) + ReadU16Le(s).value.rest
  {
    if |s| >= 2 {
      FromBigEndianRoundTrip(s[..2]);
      FromLittleEndianRoundTrip(s[..2]);
    }
  }

  lemma IsU32(s: seq<byte>)
    ensures ReadU32Be(s).Some? ==> s == BigEndian(ReadU32Be(s).value.value, 4) + ReadU32Be(s).value.rest
    ensures ReadU32Le(s).Some? ==> s == LittleEndian(ReadU32Le(s).value.value, 4) + ReadU32Le(s).value.rest
  {
    if |s| >= 4 {
      FromBigEndianRoundTrip(s[..4]);
      FromLittleEndianRoundTrip(s[..4]);
    }
  }

  lemma IsU64(s: seq<byte>)
    ensures ReadU64Be(s).Some? ==> s == BigEndian(ReadU64Be(s).value.value, 8) + ReadU64Be(s).value.rest
    ensures ReadU64Le(s).Some? ==> s == LittleEndian(ReadU64Le(s).value.value, 8) + ReadU64Le(s).value.rest
  {
    if |s| >= 8 {
      FromBigEndianRoundTrip(s[..8]);
      FromLittleEndianRoundTrip(s[..8]);
    }
  }

  lemma IsU128(s: seq<byte>)
    ensures ReadU128Be(s).Some? ==> s == BigEndian(ReadU128Be(s).value.value, 16) + ReadU128Be(s).value.rest
  {
    if |s| >= 16 {
      FromBigEndianRoundTrip(s[..16]);
    }
  }

  lemma IsPair(s: seq<byte>)
    ensures ReadPair(s).Some? ==> s == PairBytes(ReadPair(s).value.value) + ReadPair(s).value.rest
  {
    Is32(s);
    if Read32(s).Some? {
      Is32(Read32(s).value.rest);
    }
    hide Read32;
  }

  // ----- Lists -----

  /** As many pairs as were asked for, none of them all zero. */
  lemma {:induction false} AreRoots(s: seq<byte>, count: nat)
    requires ReadRoots(s, count).Some? && |ReadRoots(s, count).value| == count
    ensures PairsBytes(ReadRoots(s, count).value) <= s
  {
    if count > 0 {
      IsPair(s);
      hide ReadPair;
      var p := ReadPair(s).value;
      var rest := ReadRoots(p.rest, count - 1).value;
      AreRoots(p.rest, count - 1);
      var all := ReadRoots(s, count).value;
      assert all == [p.value] + rest && all[1..] == rest;
    }
  }

  lemma {:induction false} AreHashes(s: seq<byte>, limit: nat)
    requires ReadHashes(s, limit).Some?
    ensures
      var hs := ReadHashes(s, limit).value;
      HashesBytes(hs) <= s && (|hs| < limit ==> HashesBytes(hs) == s)
  {
    if s != [] && limit > 0 {
      Is32(s);
      hide Read32;
      var h := Read32(s).value;
      AreHashes(h.rest, limit - 1);
      var hs := ReadHashes(s, limit).value;
      assert hs[1..] == ReadHashes(h.rest, limit - 1).value;
    }
  }

  lemma {:induction false} ArePeers(s: seq<byte>, count: nat)
    requires ReadPeers(s, count).Some?
    ensures PeersBytes(ReadPeers(s, count).value) <= s
  {
    if count > 0 {
      var ip := Take(s, 16).value;
      IsU16(ip.rest);
      hide ReadU16Le, LittleEndian;
      var port := ReadU16Le(ip.rest).value;
      ArePeers(port.rest, count - 1);
      var ps := ReadPeers(s, count).value;
      assert ps[1..] == ReadPeers(port.rest, count - 1).value;
      assert s == ip.value + (LittleEndian(port.value, 2) + port.rest);
      assert PeersBytes(ps) == ip.value + (LittleEndian(port.value, 2) + PeersBytes(ps[1..]));
    }
  }

  lemma IsBlock(s: seq<byte>, limit: nat) returns (block: Block, rest: seq<byte>)
    requires ReadBlocks(s, limit).Some? && s != [] && s[0] != NOT_A_BLOCK
    ensures limit > 0 && s == [BlockTypeId(block.blockType)] + (block.body + rest) && ReadBlocks(rest, limit - 1).Some?
    ensures ReadBlocks(s, limit).value == [block] + ReadBlocks(rest, limit - 1).value
  {
    hide BlockSize;
    var t := BlockTypeOf(s[0]).value;
    var r := ReadBlock(t, s[1..]).value;
    block, rest := r.value, r.rest;
    assert s == [s[0]] + s[1..] && s[1..] == block.body + rest;
  }

  lemma NoBlock(s: seq<byte>, limit: nat)
    requires s == [] || s[0] == NOT_A_BLOCK
    ensures ReadBlocks(s, limit) == Some([]) && EndsOrGoesOn(BlocksBytes([]), s)
  {
  }

  /** The blocks without their terminator, and the terminator unless the payload ends there. */
  lemma {:induction false} AreBlocks(s: seq<byte>, limit: nat)
    requires ReadBlocks(s, limit).Some?
    ensures EndsOrGoesOn(BlocksBytes(ReadBlocks(s, limit).value), s)
    decreases |s|
  {
    hide ReadBlocks, BlockSize, EndsOrGoesOn, BlockTypeId;
    if s == [] || s[0] == NOT_A_BLOCK {
      NoBlock(s, limit);
    } else {
      var block, rest := IsBlock(s, limit);
      AreBlocks(rest, limit - 1);
      var bs := ReadBlocks(s, limit).value;
      assert bs[1..] == ReadBlocks(rest, limit - 1).value;
      InFront([BlockTypeId(block.blockType)] + block.body, BlocksBytes(bs[1..]), rest);
      assert s == ([BlockTypeId(block.blockType)] + block.body) + rest;
      assert BlocksBytes(bs) == ([BlockTypeId(block.blockType)] + block.body) + BlocksBytes(bs[1..]);
    }
  }

  /** All of `b` but its last byte is the whole of `s`, or `s` starts with `b`. */
  predicate EndsOrGoesOn(b: seq<byte>, s: seq<byte>) {
    b != [] && (b[..|b| - 1] == s || b <= s)
  }

  lemma InFront(front: seq<byte>, b: seq<byte>, s: seq<byte>)
    requires EndsOrGoesOn(b, s)
    ensures EndsOrGoesOn(front + b, front + s)
  {
    assert (front + b)[..|front + b| - 1] == front + b[..|b| - 1];
  }

  /** More blocks than the limit are refused, not cut off. */
  lemma {:induction false} TooManyBlocks(bs: seq<Block>, limit: nat)
    requires |bs| > limit
    ensures ReadBlocks(BlocksBytes(bs), limit).None?
    decreases |bs|
  {
    hide ReadBlock, BlockSize;
    var b, rest := bs[0], BlocksBytes(bs[1..]);
    var s := BlocksBytes(bs);
    BlockReadBack(b, rest);
    assert s[0] == BlockTypeId(b.blockType) && s[1..] == b.body + rest;
    if limit > 0 {
      TooManyBlocks(bs[1..], limit - 1);
    }
  }

  /** The frontiers, and the terminator unless the limit was reached. */
  lemma {:induction false} AreFrontiers(s: seq<byte>, limit: nat)
    requires ReadFrontiers(s, limit).Some?
    ensures
      var ps := ReadFrontiers(s, limit).value;
      PairsBytes(ps) <= s && (|ps| < limit ==> PairsBytes(ps) + PairBytes((Zero32(), Zero32())) <= s)
  {
    if limit > 0 {
      IsPair(s);
      hide ReadPair, PairBytes;
      var p := ReadPair(s).value;
      if !IsZeroPair(p.value) {
        AreFrontiers(p.rest, limit - 1);
        var ps := ReadFrontiers(s, limit).value;
        var rest, end := PairsBytes(ps[1..]), PairBytes((Zero32(), Zero32()));
        assert ps[1..] == ReadFrontiers(p.rest, limit - 1).value;
        assert PairsBytes(ps) + end == PairBytes(p.value) + (rest + end);
      }
    }
  }

  // ----- Messages -----

  /** The payload is what the message is written as. In a pull, and in a request whose header names a type of block, only the
      beginning matters; an answer to a pull may lack its terminator where the payload ends or the limit is reached; and the
      padding of an old pull is not looked at. */
  ghost predicate WrittenAs(m: Message, s: seq<byte>) {
    var b := PayloadBytes(m);
    match m
    case AscPullReq(_, _) => b <= s
    case ConfirmReq(_) => b <= s
    case AscPullAck(_, AccountInfoAck(_)) => b <= s
    case AscPullAck(_, BlocksAck(_)) => EndsOrGoesOn(b, s)
    case AscPullAck(_, FrontiersAck(frontiers)) => b <= s || (|frontiers| == 1000 && b[..|b| - 64] <= s)
    case BulkPull(_, _, count, _) => if count == 0 then b <= s else b[..69] <= s
    case _ => s == b
  }

  lemma VoteWritten(s: seq<byte>)
    requires DecodeVote(s).Some?
    ensures
      var v := DecodeVote(s).value;
      VoteBytes(v) <= s && (|v.hashes| < 255 ==> VoteBytes(v) == s)
  {
    hide LittleEndian, Read32, Read64, ReadU64Le, ReadHashes, HashesBytes;
    Is32(s);
    var voter := Read32(s).value;
    Is64(voter.rest);
    var signature := Read64(voter.rest).value;
    IsU64(signature.rest);
    var timestamp := ReadU64Le(signature.rest).value;
    AreHashes(timestamp.rest, 255);
    var hashes := HashesBytes(ReadHashes(timestamp.rest, 255).value);
    assert s == voter.value + (signature.value + (LittleEndian(timestamp.value, 8) + timestamp.rest));
    var front := voter.value + (signature.value + LittleEndian(timestamp.value, 8));
    assert s == front + timestamp.rest && VoteBytes(DecodeVote(s).value) == front + hashes;
  }

  lemma ConfirmReqWritten(s: seq<byte>, ext: U16)
    requires DecodeConfirmReq(s, ext).Some?
    ensures
      var b := PayloadBytes(DecodeConfirmReq(s, ext).value);
      b <= s && (|s| == 64 * Count(ext) ==> b == s)
  {
    AreRoots(s, Count(ext));
  }

  lemma BulkPullWritten(s: seq<byte>, ext: U16)
    requires DecodeBulkPull(s, ext).Some?
    ensures WrittenAs(DecodeBulkPull(s, ext).value, s)
  {
    hide Read32, ReadU8, ReadU32Le, LittleEndian, Bit0, Bit1;
    Is32(s);
    var start := Read32(s).value;
    Is32(start.rest);
    var end := Read32(start.rest).value;
    var a: seq<byte>, b: seq<byte> := start.value, end.value;
    var both := a + b;
    assert s == both + end.rest;
    if Bit0(ext) {
      IsU8(end.rest);
      var first := ReadU8(end.rest).value;
      IsU32(first.rest);
      var count := ReadU32Le(first.rest).value;
      var front := both + [0] + LittleEndian(count.value, 4);
      assert s == front + count.rest;
      var bytes := PayloadBytes(DecodeBulkPull(s, ext).value);
      assert count.value > 0 ==> bytes == front + [0, 0, 0];
      assert count.value == 0 ==> bytes == both;
    }
  }

  lemma BulkPullAccountWritten(s: seq<byte>)
    requires DecodeBulkPullAccount(s).Some? && |s| == 49
    ensures PayloadBytes(DecodeBulkPullAccount(s).value) == s
  {
    hide BigEndian;
    Is32(s);
    var account := Read32(s).value;
    IsU128(account.rest);
    var minimum := ReadU128Be(account.rest).value;
    IsU8(minimum.rest);
    hide Read32, ReadU128Be;
    assert ReadU8(minimum.rest).value.rest == [];
  }

  lemma FrontierReqWritten(s: seq<byte>, ext: U16)
    requires DecodeFrontierReq(s, ext).Some? && |s| == 40
    ensures PayloadBytes(DecodeFrontierReq(s, ext).value) == s
  {
    hide LittleEndian;
    Is32(s);
    var start := Read32(s).value;
    IsU32(start.rest);
    var age := ReadU32Le(start.rest).value;
    IsU32(age.rest);
    var count := ReadU32Le(age.rest).value;
    assert count.rest == [] && LittleEndian(count.value, 4) + [] == LittleEndian(count.value, 4);
  }

  lemma HashTypeWritten(s: seq<byte>)
    requires ReadHashType(s).Some?
    ensures [HashTypeCode(ReadHashType(s).value)] <= s
  {
  }

  lemma AscPullReqWritten(s: seq<byte>)
    requires DecodeAscPullReq(s).Some?
    ensures PayloadBytes(DecodeAscPullReq(s).value) <= s
  {
    hide BigEndian, Read32, ReadU64Be, ReadU16Be, ReadHashType, HashTypeCode;
    IsU8(s);
    var code := ReadU8(s).value;
    IsU64(code.rest);
    var id := ReadU64Be(code.rest).value;
    Is32(id.rest);
    var start := Read32(id.rest).value;
    IsU16(start.rest);
    IsU8(start.rest);
    var front := [code.value] + (BigEndian(id.value, 8) + start.value);
    assert s == front + start.rest;
    var m := DecodeAscPullReq(s).value;
    var tail: seq<byte> := match m.req
      case BlocksReq(t, _, count) => [count] + [HashTypeCode(t)]
      case AccountInfoReq(_, t) => [HashTypeCode(t)]
      case FrontiersReq(_, count) => BigEndian(count, 2);
    assert PayloadBytes(m) == front + tail;
    if code.value == 1 {
      HashTypeWritten(ReadU8(start.rest).value.rest);
    } else if code.value == 2 {
      HashTypeWritten(start.rest);
    }
    assert tail <= start.rest;
  }

  lemma AccountInfoWritten(s: seq<byte>)
    requires DecodeAccountInfo(s).Some?
    ensures AccountInfoBytes(DecodeAccountInfo(s).value) <= s
  {
    hide BigEndian, Read32, ReadU64Be;
    Is32(s);
    var account := Read32(s).value;
    Is32(account.rest);
    var open := Read32(account.rest).value;
    Is32(open.rest);
    var head := Read32(open.rest).value;
    IsU64(head.rest);
    var count := ReadU64Be(head.rest).value;
    Is32(count.rest);
    var frontier := Read32(count.rest).value;
    IsU64(frontier.rest);
    var height := ReadU64Be(frontier.rest).value;
    assert s == AccountInfoBytes(DecodeAccountInfo(s).value) + height.rest;
  }

  /** What the answer to a pull is written as, without its number. */
  ghost predicate AckWrittenAs(ack: AscPullReply, s: seq<byte>) {
    var b := AscPullAckBytes(ack);
    match ack
    case AccountInfoAck(_) => b <= s
    case BlocksAck(_) => EndsOrGoesOn(b, s)
    case FrontiersAck(frontiers) => b <= s || (|frontiers| == 1000 && b[..|b| - 64] <= s)
  }

  lemma AckPayload(id: U64, ack: AscPullReply)
    ensures PayloadBytes(AscPullAck(id, ack)) == ([AscPullAckCode(ack)] + BigEndian(id, 8)) + AscPullAckBytes(ack)
  {
    hide BigEndian, AscPullAckBytes;
  }

  lemma PrefixInFront(front: seq<byte>, b: seq<byte>, s: seq<byte>)
    ensures b <= s ==> front + b <= front + s
    ensures |b| >= 64 ==> (front + b)[..|front + b| - 64] == front + b[..|b| - 64]
  {
  }

  lemma AckInFront(id: U64, ack: AscPullReply, rest: seq<byte>)
    requires AckWrittenAs(ack, rest)
    ensures WrittenAs(AscPullAck(id, ack), ([AscPullAckCode(ack)] + BigEndian(id, 8)) + rest)
  {
    hide BigEndian, AscPullAckBytes, EndsOrGoesOn, PayloadBytes;
    var front, b := [AscPullAckCode(ack)] + BigEndian(id, 8), AscPullAckBytes(ack);
    AckPayload(id, ack);
    PrefixInFront(front, b, rest);
    if ack.BlocksAck? {
      InFront(front, b, rest);
    } else if ack.FrontiersAck? {
      PrefixInFront(front, b[..|b| - 64], rest);
    }
  }

  lemma AscPullAckWritten(s: seq<byte>)
    requires DecodeAscPullAck(s).Some?
    ensures WrittenAs(DecodeAscPullAck(s).value, s)
  {
    hide BigEndian, ReadU64Be, ReadBlocks, ReadFrontiers, DecodeAccountInfo, BlocksBytes, PairsBytes, PairBytes,
         AccountInfoBytes, EndsOrGoesOn, WrittenAs;
    IsU8(s);
    var code := ReadU8(s).value;
    IsU64(code.rest);
    var id := ReadU64Be(code.rest).value;
    var ack := DecodeAscPullAck(s).value.ack;
    if code.value == 1 {
      AreBlocks(id.rest, 128);
    } else if code.value == 2 {
      AccountInfoWritten(id.rest);
    } else {
      AreFrontiers(id.rest, 1000);
      var b := AscPullAckBytes(ack);
      assert b[..|b| - 64] == PairsBytes(ack.frontiers);
    }
    AckInFront(id.value, ack, id.rest);
    assert s == ([code.value] + BigEndian(id.value, 8)) + id.rest;
  }

  lemma ResponseWritten(s: seq<byte>, ext: U16)
    requires DecodeResponse(s, ext).Some? && |s| == if Bit2(ext) then 160 else 96
    ensures ResponseBytes(DecodeResponse(s, ext).value) == s
  {
    hide Bit2;
    Is32(s);
    var nodeId := Read32(s).value;
    if Bit2(ext) {
      Is32(nodeId.rest);
      var salt := Read32(nodeId.rest).value;
      Is32(salt.rest);
      var genesis := Read32(salt.rest).value;
      Is64(genesis.rest);
      assert Read64(genesis.rest).value.rest == [];
    } else {
      Is64(nodeId.rest);
      assert Read64(nodeId.rest).value.rest == [];
    }
  }

  lemma HandshakeWritten(s: seq<byte>, ext: U16)
    requires DecodeHandshake(s, ext).Some? && |s| == PayloadLength(NodeIdHandshakeType, ext)
    ensures HandshakeBytes(DecodeHandshake(s, ext).value) == s
  {
    hide Bit0, Bit1, Bit2, ResponseBytes;
    var rest := s;
    if Bit0(ext) {
      Is32(s);
      rest := Read32(s).value.rest;
    }
    if Bit1(ext) {
      ResponseWritten(rest, ext);
    } else {
      assert rest == [];
    }
  }

  lemma CountersWritten(s: seq<byte>, d: Telemetry)
    requires ReadCounters(s).Some?
    requires ReadCounters(s).value.value == Counters(d.blockCount, d.cementedCount, d.uncheckedCount, d.accountCount, d.bandwidthCap)
    ensures s == TelemetryCounters(d) + ReadCounters(s).value.rest
  {
    hide BigEndian, ReadU64Be;
    IsU64(s);
    var a := ReadU64Be(s).value;
    IsU64(a.rest);
    var b := ReadU64Be(a.rest).value;
    IsU64(b.rest);
    var c := ReadU64Be(b.rest).value;
    IsU64(c.rest);
    var e := ReadU64Be(c.rest).value;
    IsU64(e.rest);
    var rest := ReadU64Be(e.rest).value.rest;
    Regroup(BigEndian(e.value, 8), BigEndian(d.bandwidthCap, 8), rest);
    var t3 := BigEndian(e.value, 8) + BigEndian(d.bandwidthCap, 8);
    Regroup(BigEndian(c.value, 8), t3, rest);
    var t2 := BigEndian(c.value, 8) + t3;
    Regroup(BigEndian(b.value, 8), t2, rest);
    Regroup(BigEndian(a.value, 8), BigEndian(b.value, 8) + t2, rest);
  }

  lemma Regroup(a: seq<byte>, b: seq<byte>, c: seq<byte>)
    ensures a + (b + c) == (a + b) + c
  {
  }

  lemma VersionsWritten(s: seq<byte>)
    requires ReadVersions(s).Some?
    ensures s == VersionsBytes(ReadVersions(s).value.value) + ReadVersions(s).value.rest
  {
  }

  lemma TelemetryWritten(s: seq<byte>)
    requires DecodeTelemetry(s, |s|).Some?
    ensures TelemetryBytes(DecodeTelemetry(s, |s|).value) == s
  {
    hide BigEndian, Read32, Read64, ReadU64Be, ReadU32Be, ReadCounters, ReadVersions, TelemetryCounters, VersionsBytes;
    var d := DecodeTelemetry(s, |s|).value;
    Is64(s);
    var signature := Read64(s).value;
    Is32(signature.rest);
    var nodeId := Read32(signature.rest).value;
    CountersWritten(nodeId.rest, d);
    var counters := ReadCounters(nodeId.rest).value;
    IsU32(counters.rest);
    var peerCount := ReadU32Be(counters.rest).value;
    IsU8(peerCount.rest);
    var version := ReadU8(peerCount.rest).value;
    IsU64(version.rest);
    var uptime := ReadU64Be(version.rest).value;
    Is32(uptime.rest);
    var genesis := Read32(uptime.rest).value;
    VersionsWritten(genesis.rest);
    var versions := ReadVersions(genesis.rest).value;
    IsU64(versions.rest);
    var timestamp := ReadU64Be(versions.rest).value;
    IsU64(timestamp.rest);
    var difficulty := ReadU64Be(timestamp.rest).value;
    assert |s| == 202 + |difficulty.rest|;
    assert d.unknown == difficulty.rest;
  }

  /** A payload of the announced length that is read as a message is what that message is written as. So no two payloads are
      read as the same message, and nothing that could not have been written is accepted. */
  lemma ReadIsWritten(t: MessageType, ext: U16, s: seq<byte>, digest: nat)
    requires DecodeMessage(t, ext, s, digest).Some? && |s| == PayloadLength(t, ext)
    ensures WrittenAs(DecodeMessage(t, ext, s, digest).value, s)
  {
    hide DecodeAscPullReq, DecodeAscPullAck, DecodeBulkPull, DecodeBulkPullAccount, DecodeFrontierReq, DecodeVote, DecodeHandshake,
         DecodeConfirmReq, DecodeTelemetry, ReadPeers, PeersBytes, VoteBytes, HandshakeBytes, TelemetryBytes;
    match t {
      case KeepaliveType => ArePeers(s, 8);
      case PublishType =>
      case AscPullAckType => AscPullAckWritten(s);
      case AscPullReqType => AscPullReqWritten(s);
      case BulkPullType => BulkPullWritten(s, ext);
      case BulkPullAccountType => BulkPullAccountWritten(s);
      case ConfirmAckType => VoteWritten(s);
      case ConfirmReqType => ConfirmReqWritten(s, ext);
      case FrontierReqType => FrontierReqWritten(s, ext);
      case NodeIdHandshakeType => HandshakeWritten(s, ext);
      case TelemetryAckType =>
        if s != [] {
          TelemetryWritten(s);
        }
      case _ =>
    }
  }
}
