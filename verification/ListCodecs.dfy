/** The loops that write and read the lists inside messages, proved against the recursive definitions. */
module ListCodecs {
  import opened Options
  import opened Bytes
  import opened Messages
  import opened Payloads

  /** What was read so far, in front of what is still to be read. */
  function Prepend<T>(front: seq<T>, rest: Option<seq<T>>): Option<seq<T>> {
    if rest.None? then None else Some(front + rest.value)
  }

  lemma PrependOne<T>(front: seq<T>, x: T, rest: Option<seq<T>>)
    ensures Prepend(front, Prepend([x], rest)) == Prepend(front + [x], rest)
  {
    if rest.Some? {
      assert front + ([x] + rest.value) == front + [x] + rest.value;
    }
  }

  lemma PrependNothing<T>(front: seq<T>)
    ensures Prepend(front, Some([])) == Some(front)
  {
    assert front + [] == front;
  }

  lemma PrependToAll<T>(rest: Option<seq<T>>)
    ensures Prepend([], rest) == rest
  {
    assert rest.Some? ==> [] + rest.value == rest.value;
  }

  method DeserializeRoots(bytes: seq<byte>, ext: U16) returns (r: Option<seq<(Bytes32, Bytes32)>>)
    ensures r.Some? <==> DecodeConfirmReq(bytes, ext).Some?
    ensures r.Some? ==> |r.value| <= 255 && DecodeConfirmReq(bytes, ext) == Some(ConfirmReq(r.value))
  {
    hide Read32, Count, IsZeroPair;
    var count := Count(ext);
    var roots, rest := [], bytes;
    PrependToAll(ReadRoots(bytes, count));
    for i := 0 to count
      invariant ReadRoots(bytes, count) == Prepend(roots, ReadRoots(rest, count - i))
    {
      var pair := ReadPair(rest);
      if pair.None? {
        return None;
      }
      if !IsZeroPair(pair.value.value) {
        PrependOne(roots, pair.value.value, ReadRoots(pair.value.rest, count - i - 1));
        roots := roots + [pair.value.value];
      }
      rest := pair.value.rest;
    }
    PrependNothing(roots);
    r := if roots == [] || |roots| != count then None else Some(roots);
  }

  method DeserializeHashes(bytes: seq<byte>, limit: nat) returns (r: Option<seq<Bytes32>>)
    ensures r == ReadHashes(bytes, limit)
  {
    hide Read32;
    var hashes, rest := [], bytes;
    PrependToAll(ReadHashes(bytes, limit));
    while rest != [] && |hashes| < limit
      invariant |hashes| <= limit
      invariant ReadHashes(bytes, limit) == Prepend(hashes, ReadHashes(rest, limit - |hashes|))
      decreases limit - |hashes|
    {
      var h := Read32(rest);
      if h.None? {
        return None;
      }
      PrependOne(hashes, h.value.value, ReadHashes(h.value.rest, limit - |hashes| - 1));
      hashes, rest := hashes + [h.value.value], h.value.rest;
    }
    PrependNothing(hashes);
    r := Some(hashes);
  }

  method DeserializeFrontiers(bytes: seq<byte>, limit: nat) returns (r: Option<seq<(Bytes32, Bytes32)>>)
    ensures r == ReadFrontiers(bytes, limit)
  {
    hide Read32, IsZeroPair;
    var frontiers, rest := [], bytes;
    PrependToAll(ReadFrontiers(bytes, limit));
    while |frontiers| < limit
      invariant |frontiers| <= limit
      invariant ReadFrontiers(bytes, limit) == Prepend(frontiers, ReadFrontiers(rest, limit - |frontiers|))
    {
      var current := ReadPair(rest);
      if current.None? {
        return None;
      }
      if IsZeroPair(current.value.value) {
        break;
      }
      PrependOne(frontiers, current.value.value, ReadFrontiers(current.value.rest, limit - |frontiers| - 1));
      frontiers, rest := frontiers + [current.value.value], current.value.rest;
    }
    PrependNothing(frontiers);
    r := Some(frontiers);
  }

  lemma BlockIsTaken(t: BlockType, s: seq<byte>)
    ensures var block := ReadBlock(t, s); block.Some? ==> |block.value.rest| <= |s|
  {
  }

  /** The limit is checked after a block was pushed. */
  method DeserializeBlocks(bytes: seq<byte>, limit: nat) returns (r: Option<seq<Block>>)
    ensures r == ReadBlocks(bytes, limit)
  {
    hide BlockTypeOf, ReadBlock;
    var blocks, rest := [], bytes;
    PrependToAll(ReadBlocks(bytes, limit));
    while rest != []
      invariant |blocks| <= limit
      invariant ReadBlocks(bytes, limit) == Prepend(blocks, ReadBlocks(rest, limit - |blocks|))
      decreases |rest|
    {
      if rest[0] == NOT_A_BLOCK {
        break;
      }
      var blockType := BlockTypeOf(rest[0]);
      if blockType.None? {
        return None;
      }
      var block := ReadBlock(blockType.value, rest[1..]);
      if block.None? {
        return None;
      }
      ghost var before := blocks;
      blocks := blocks + [block.value.value];
      if |blocks| > limit {
        return None;
      }
      PrependOne(before, block.value.value, ReadBlocks(block.value.rest, limit - |blocks|));
      BlockIsTaken(blockType.value, rest[1..]);
      rest := block.value.rest;
    }
    PrependNothing(blocks);
    r := Some(blocks);
  }

  /** The eight peers of a keepalive are filled in one by one. */
  method DeserializePeers(bytes: seq<byte>) returns (r: Option<seq<Peer>>)
    ensures r == ReadPeers(bytes, 8)
  {
    hide ReadU16Le;
    var peers := new Peer[8](_ => Peer(seq(16, _ => 0), 0, 0, 0));
    var rest := bytes;
    PrependToAll(ReadPeers(bytes, 8));
    assert peers[..0] == [];
    for i := 0 to 8
      invariant ReadPeers(bytes, 8) == Prepend(peers[..i], ReadPeers(rest, 8 - i))
    {
      var ip := Take(rest, 16);
      if ip.None? {
        return None;
      }
      var port := ReadU16Le(ip.value.rest);
      if port.None? {
        return None;
      }
      ghost var before := peers[..i];
      peers[i] := Peer(ip.value.value, port.value.value, 0, 0);
      assert peers[..i + 1] == before + [peers[i]];
      PrependOne(before, peers[i], ReadPeers(port.value.rest, 8 - i - 1));
      rest := port.value.rest;
    }
    PrependNothing(peers[..8]);
    r := Some(peers[..8]);
  }

  method SerializePairs(pairs: seq<(Bytes32, Bytes32)>) returns (bytes: seq<byte>)
    ensures bytes == PairsBytes(pairs)
  {
    bytes := [];
    for i := 0 to |pairs|
      invariant bytes + PairsBytes(pairs[i..]) == PairsBytes(pairs)
    {
      assert pairs[i..][0] == pairs[i] && pairs[i..][1..] == pairs[i + 1..];
      ghost var rest := PairsBytes(pairs[i + 1..]);
      assert bytes + (PairBytes(pairs[i]) + rest) == bytes + pairs[i].0 + pairs[i].1 + rest;
      bytes := bytes + pairs[i].0;
      bytes := bytes + pairs[i].1;
    }
  }

  method SerializeBlocks(blocks: seq<Block>) returns (bytes: seq<byte>)
    ensures bytes == BlocksBytes(blocks)
  {
    hide BlockTypeId;
    bytes := [];
    for i := 0 to |blocks|
      invariant bytes + BlocksBytes(blocks[i..]) == BlocksBytes(blocks)
    {
      assert blocks[i..][0] == blocks[i] && blocks[i..][1..] == blocks[i + 1..];
      ghost var rest := BlocksBytes(blocks[i + 1..]);
      ghost var code := [BlockTypeId(blocks[i].blockType)];
      assert bytes + (code + (blocks[i].body + rest)) == bytes + code + blocks[i].body + rest;
      bytes := bytes + [BlockTypeId(blocks[i].blockType)] + blocks[i].body;
    }
    bytes := bytes + [NOT_A_BLOCK];
  }

  method SerializePeers(peers: seq<Peer>) returns (bytes: seq<byte>)
    ensures bytes == PeersBytes(peers)
  {
    hide LittleEndian;
    bytes := [];
    for i := 0 to |peers|
      invariant bytes + PeersBytes(peers[i..]) == PeersBytes(peers)
    {
      assert peers[i..][0] == peers[i] && peers[i..][1..] == peers[i + 1..];
      ghost var rest := PeersBytes(peers[i + 1..]);
      var port := LittleEndian(peers[i].port, 2);
      assert bytes + (peers[i].ip + (port + rest)) == bytes + peers[i].ip + port + rest;
      bytes := bytes + peers[i].ip + port;
    }
  }
}
