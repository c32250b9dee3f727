/** Byte strings, fixed-width integers and reading from the front of a byte string. */
module Bytes {
  import opened Options

  type byte = b: int | 0 <= b < 256

  type U8 = n: nat | n < 0x100
  type U16 = n: nat | n < 0x1_0000
  type U32 = n: nat | n < 0x1_0000_0000
  type U64 = n: nat | n < 0x1_0000_0000_0000_0000
  type U128 = n: nat | n < 0x1_0000_0000_0000_0000_0000_0000_0000_0000

  type Bytes16 = s: seq<byte> | |s| == 16 witness seq(16, _ => 0)
  type Bytes32 = s: seq<byte> | |s| == 32 witness seq(32, _ => 0)
  type Bytes64 = s: seq<byte> | |s| == 64 witness seq(64, _ => 0)

  function Zero32(): Bytes32 {
    seq(32, _ => 0)
  }

  function Pow256(k: nat): nat {
    if k == 0 then 1 else 256 * Pow256(k - 1)
  }

  function BigEndian(n: nat, width: nat): (s: seq<byte>)
    ensures |s| == width
  {
    if width == 0 then [] else BigEndian(n / 256, width - 1) + [n % 256]
  }

  function FromBigEndian(s: seq<byte>): nat {
    if s == [] then 0 else FromBigEndian(s[..|s| - 1]) * 256 + s[|s| - 1]
  }

  function LittleEndian(n: nat, width: nat): (s: seq<byte>)
    ensures |s| == width
  {
    if width == 0 then [] else [n % 256] + LittleEndian(n / 256, width - 1)
  }

  function FromLittleEndian(s: seq<byte>): nat {
    if s == [] then 0 else s[0] + 256 * FromLittleEndian(s[1..])
  }

  lemma {:induction false} BigEndianRoundTrip(n: nat, width: nat)
    requires n < Pow256(width)
    ensures FromBigEndian(BigEndian(n, width)) == n
    decreases width
  {
    if width > 0 {
      BigEndianRoundTrip(n / 256, width - 1);
      assert BigEndian(n, width)[..width - 1] == BigEndian(n / 256, width - 1);
    }
  }

  lemma {:induction false} LittleEndianRoundTrip(n: nat, width: nat)
    requires n < Pow256(width)
    ensures FromLittleEndian(LittleEndian(n, width)) == n
    decreases width
  {
    if width > 0 {
      LittleEndianRoundTrip(n / 256, width - 1);
      assert LittleEndian(n, width)[1..] == LittleEndian(n / 256, width - 1);
    }
  }

  lemma {:induction false} FromBigEndianRoundTrip(s: seq<byte>)
    ensures BigEndian(FromBigEndian(s), |s|) == s
  {
    if s != [] {
      FromBigEndianRoundTrip(s[..|s| - 1]);
      assert s == s[..|s| - 1] + [s[|s| - 1]];
    }
  }

  lemma {:induction false} FromLittleEndianRoundTrip(s: seq<byte>)
    ensures LittleEndian(FromLittleEndian(s), |s|) == s
  {
    if s != [] {
      FromLittleEndianRoundTrip(s[1..]);
      assert s == [s[0]] + s[1..];
    }
  }

  lemma {:induction false} FromBigEndianFits(s: seq<byte>)
    ensures FromBigEndian(s) < Pow256(|s|)
  {
    if s != [] {
      FromBigEndianFits(s[..|s| - 1]);
    }
  }

  lemma {:induction false} FromLittleEndianFits(s: seq<byte>)
    ensures FromLittleEndian(s) < Pow256(|s|)
  {
    if s != [] {
      FromLittleEndianFits(s[1..]);
    }
  }

  lemma Pow256Values()
    ensures Pow256(1) == 0x100 && Pow256(2) == 0x1_0000 && Pow256(4) == 0x1_0000_0000
    ensures Pow256(8) == 0x1_0000_0000_0000_0000
    ensures Pow256(16) == 0x1_0000_0000_0000_0000_0000_0000_0000_0000
  {
    assert Pow256(4) == 256 * Pow256(3) == 256 * 256 * Pow256(2) == 0x1_0000_0000;
    assert Pow256(8) == 256 * Pow256(7) == 256 * 256 * Pow256(6) == 256 * 256 * 256 * Pow256(5) == 0x1_0000_0000 * Pow256(4);
    assert Pow256(12) == 256 * Pow256(11) == 256 * 256 * Pow256(10) == 256 * 256 * 256 * Pow256(9) == 0x1_0000_0000 * Pow256(8);
    assert Pow256(16) == 256 * Pow256(15) == 256 * 256 * Pow256(14) == 256 * 256 * 256 * Pow256(13) == 0x1_0000_0000 * Pow256(12);
  }

  // ----- Reading -----

  /** A value read from the front of a byte string, and the bytes behind it. */
  datatype Read<+T> = Read(value: T, rest: seq<byte>)

  /** Reads exactly `k` bytes or fails. */
  function Take(s: seq<byte>, k: nat): (r: Option<Read<seq<byte>>>)
    ensures r.Some? <==> k <= |s|
    ensures r.Some? ==> r.value.value == s[..k] && r.value.rest == s[k..]
  {
    if |s| < k then None else Some(Read(s[..k], s[k..]))
  }

  lemma TakeAppended(a: seq<byte>, rest: seq<byte>)
    ensures Take(a + rest, |a|) == Some(Read(a, rest))
  {
    assert (a + rest)[..|a|] == a && (a + rest)[|a|..] == rest;
  }

  function ReadU8(s: seq<byte>): (r: Option<Read<U8>>)
  {
    if s == [] then None else Some(Read(s[0], s[1..]))
  }

  function ReadU16Be(s: seq<byte>): (r: Option<Read<U16>>)
  {
    var r :- Take(s, 2);
    FromBigEndianFits(r.value);
    Pow256Values();
    Some(Read(FromBigEndian(r.value), r.rest))
  }

  function ReadU16Le(s: seq<byte>): (r: Option<Read<U16>>)
  {
    var r :- Take(s, 2);
    FromLittleEndianFits(r.value);
    Pow256Values();
    Some(Read(FromLittleEndian(r.value), r.rest))
  }

  function ReadU32Be(s: seq<byte>): (r: Option<Read<U32>>)
  {
    var r :- Take(s, 4);
    FromBigEndianFits(r.value);
    Pow256Values();
    Some(Read(FromBigEndian(r.value), r.rest))
  }

  function ReadU32Le(s: seq<byte>): (r: Option<Read<U32>>)
  {
    var r :- Take(s, 4);
    FromLittleEndianFits(r.value);
    Pow256Values();
    Some(Read(FromLittleEndian(r.value), r.rest))
  }

  function ReadU64Be(s: seq<byte>): (r: Option<Read<U64>>)
  {
    var r :- Take(s, 8);
    FromBigEndianFits(r.value);
    Pow256Values();
    Some(Read(FromBigEndian(r.value), r.rest))
  }

  function ReadU64Le(s: seq<byte>): (r: Option<Read<U64>>)
  {
    var r :- Take(s, 8);
    FromLittleEndianFits(r.value);
    Pow256Values();
    Some(Read(FromLittleEndian(r.value), r.rest))
  }

  function ReadU128Be(s: seq<byte>): (r: Option<Read<U128>>)
  {
    var r :- Take(s, 16);
    FromBigEndianFits(r.value);
    Pow256Values();
    Some(Read(FromBigEndian(r.value), r.rest))
  }

  function Read32(s: seq<byte>): (r: Option<Read<Bytes32>>)
  {
    var r :- Take(s, 32);
    Some(Read(r.value, r.rest))
  }

  function Read64(s: seq<byte>): (r: Option<Read<Bytes64>>)
  {
    var r :- Take(s, 64);
    Some(Read(r.value, r.rest))
  }

  // ----- Reading back what was written -----

  lemma ReadBack32(a: Bytes32, rest: seq<byte>)
    ensures Read32(a + rest) == Some(Read(a, rest))
  {
    TakeAppended(a, rest);
  }

  lemma ReadBack64(a: Bytes64, rest: seq<byte>)
    ensures Read64(a + rest) == Some(Read(a, rest))
  {
    TakeAppended(a, rest);
  }

  lemma ReadBackU8(n: U8, rest: seq<byte>)
    ensures ReadU8([n] + rest) == Some(Read(n, rest))
  {
  }

  lemma ReadBackU16(n: U16, rest: seq<byte>)
    ensures ReadU16Be(BigEndian(n, 2) + rest) == Some(Read(n, rest))
    ensures ReadU16Le(LittleEndian(n, 2) + rest) == Some(Read(n, rest))
  {
    Pow256Values();
    TakeAppended(BigEndian(n, 2), rest);
    TakeAppended(LittleEndian(n, 2), rest);
    BigEndianRoundTrip(n, 2);
    LittleEndianRoundTrip(n, 2);
  }

  lemma ReadBackU32(n: U32, rest: seq<byte>)
    ensures ReadU32Be(BigEndian(n, 4) + rest) == Some(Read(n, rest))
    ensures ReadU32Le(LittleEndian(n, 4) + rest) == Some(Read(n, rest))
  {
    Pow256Values();
    TakeAppended(BigEndian(n, 4), rest);
    TakeAppended(LittleEndian(n, 4), rest);
    BigEndianRoundTrip(n, 4);
    LittleEndianRoundTrip(n, 4);
  }

  lemma ReadBackU64(n: U64, rest: seq<byte>)
    ensures ReadU64Be(BigEndian(n, 8) + rest) == Some(Read(n, rest))
    ensures ReadU64Le(LittleEndian(n, 8) + rest) == Some(Read(n, rest))
  {
    Pow256Values();
    TakeAppended(BigEndian(n, 8), rest);
    TakeAppended(LittleEndian(n, 8), rest);
    BigEndianRoundTrip(n, 8);
    LittleEndianRoundTrip(n, 8);
  }

  lemma ReadBackU128(n: U128, rest: seq<byte>)
    ensures ReadU128Be(BigEndian(n, 16) + rest) == Some(Read(n, rest))
  {
    Pow256Values();
    TakeAppended(BigEndian(n, 16), rest);
    BigEndianRoundTrip(n, 16);
  }
}
