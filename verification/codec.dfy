/**
 * The byte layouts behind the BLOB columns `timetable_list` (int64 ids) and
 * `friends` (UUIDs) of the accounts table: the specification functions that
 * the packing methods of utils/bytes.go and models/bytes.go are proved
 * against, and their round-trip, length and prefix properties.
 */
module Codec {
  import opened GoTypes
  import opened Blocks
  import opened Models

  // ---------------------------------------------------------------------------
  // One int64 as eight little-endian bytes
  // ---------------------------------------------------------------------------

  function Pow256(n: nat): (p: nat)
    ensures p >= 1
  {
    if n == 0 then 1 else 256 * Pow256(n - 1)
  }

  lemma EightBytesHoldInt64()
    ensures Pow256(8) == TWO_64
  {
    assert Pow256(2) == 0x1_0000;
    assert Pow256(4) == 0x1_0000_0000;
    assert Pow256(6) == 0x1_0000_0000_0000;
  }

  /** The n low-order bytes of u, least significant first. */
  function LittleEndian(u: nat, n: nat): (bs: seq<Byte>)
    ensures |bs| == n
  {
    if n == 0 then [] else [u % 256] + LittleEndian(u / 256, n - 1)
  }

  /** The unsigned number that bytes stored least significant first denote. */
  function FromLittleEndian(bs: seq<Byte>): (u: nat)
    ensures u < Pow256(|bs|)
  {
    if bs == [] then 0 else bs[0] + 256 * FromLittleEndian(bs[1..])
  }

  lemma {:induction false} LittleEndianRoundTrip(u: nat, n: nat)
    requires u < Pow256(n)
    ensures FromLittleEndian(LittleEndian(u, n)) == u
  {
    if n > 0 {
      LittleEndianRoundTrip(u / 256, n - 1);
      assert LittleEndian(u, n)[1..] == LittleEndian(u / 256, n - 1);
    }
  }

  lemma {:induction false} FromLittleEndianRoundTrip(bs: seq<Byte>)
    ensures LittleEndian(FromLittleEndian(bs), |bs|) == bs
  {
    if bs != [] {
      var u := FromLittleEndian(bs);
      assert u % 256 == bs[0] && u / 256 == FromLittleEndian(bs[1..]);
      FromLittleEndianRoundTrip(bs[1..]);
    }
  }

  /** The last byte is the most significant one: it weighs 256^(n-1). */
  lemma {:induction false} LastByteWeight(bs: seq<Byte>)
    requires |bs| > 0
    ensures FromLittleEndian(bs) ==
      FromLittleEndian(bs[..|bs| - 1]) + Pow256(|bs| - 1) * bs[|bs| - 1]
  {
    if |bs| > 1 {
      LastByteWeight(bs[1..]);
      assert bs[1..][..|bs| - 2] == bs[..|bs| - 1][1..];
    }
  }

  /** Of eight little-endian bytes, the value is at least 2^63 exactly when the top bit of the last byte is set. */
  lemma SignBitInLastByte(bs: seq<Byte>)
    requires |bs| == 8
    ensures FromLittleEndian(bs) >= TWO_63 <==> bs[7] >= 0x80
  {
    LastByteWeight(bs);
    EightBytesHoldInt64();
    var low := FromLittleEndian(bs[..7]);
    assert low < Pow256(7);
    assert Pow256(7) * 0x80 == TWO_63;
    if bs[7] >= 0x80 {
      assert Pow256(7) * bs[7] >= Pow256(7) * 0x80;
    } else {
      assert Pow256(7) * bs[7] <= Pow256(7) * 0x7f;
    }
  }

  /** The 64-bit two's complement pattern of v, as an unsigned number. */
  function TwosComplement(v: Int64): (u: nat)
    ensures u < TWO_64
    ensures u < TWO_63 <==> v >= 0
  {
    if v < 0 then v as int + TWO_64 else v as int
  }

  /** The int64 whose two's complement pattern is u. */
  function FromTwosComplement(u: nat): (v: Int64)
    requires u < TWO_64
    ensures TwosComplement(v) == u
  {
    if u < TWO_63 then u as Int64 else (u - TWO_64) as Int64
  }

  /** `binary.Write(buf, binary.LittleEndian, value)` for one int64. */
  function Int64ToBytes(v: Int64): (bs: seq<Byte>)
    ensures |bs| == 8
  {
    LittleEndian(TwosComplement(v), 8)
  }

  /** `binary.Read(buf, binary.LittleEndian, &x)` for one int64 from eight bytes. */
  function BytesToInt64(bs: seq<Byte>): (v: Int64)
    requires |bs| == 8
    ensures TwosComplement(v) == FromLittleEndian(bs)
    ensures v < 0 <==> bs[7] >= 0x80
  {
    EightBytesHoldInt64();
    SignBitInLastByte(bs);
    FromTwosComplement(FromLittleEndian(bs))
  }

  /** The eight bytes are the two's complement of the value, least significant byte first. */
  lemma Int64BytesAreLittleEndian(v: Int64)
    ensures FromLittleEndian(Int64ToBytes(v)) == TwosComplement(v)
  {
    EightBytesHoldInt64();
    LittleEndianRoundTrip(TwosComplement(v), 8);
  }

  lemma Int64RoundTrip(v: Int64)
    ensures BytesToInt64(Int64ToBytes(v)) == v
  {
    Int64BytesAreLittleEndian(v);
  }

  lemma BytesRoundTrip(bs: seq<Byte>)
    requires |bs| == 8
    ensures Int64ToBytes(BytesToInt64(bs)) == bs
  {
    EightBytesHoldInt64();
    FromLittleEndianRoundTrip(bs);
  }

  // ---------------------------------------------------------------------------
  // int64 arrays
  // ---------------------------------------------------------------------------

  /** One eight-byte block per element. */
  function Int64Blocks(a: seq<Int64>): (blocks: seq<seq<Byte>>)
    ensures |blocks| == |a| && Uniform(blocks, 8)
  {
    seq(|a|, i requires 0 <= i < |a| => Int64ToBytes(a[i]))
  }

  /** What Int64ArrayToBytes returns: the elements' blocks, concatenated in order. */
  function EncodeInt64s(a: seq<Int64>): (bs: seq<Byte>)
    ensures |bs| == 8 * |a|
  {
    FlattenLength(Int64Blocks(a), 8);
    Flatten(Int64Blocks(a))
  }

  /** What BytesToInt64Array returns: one int64 per whole eight-byte block. */
  function DecodeInt64s(data: seq<Byte>): (vs: seq<Int64>)
    ensures |vs| == |data| / 8
  {
    var blocks := Chunks(data, 8);
    seq(|blocks|, i requires 0 <= i < |blocks| => BytesToInt64(blocks[i]))
  }

  /** The encoding is 8 bytes per element, and element i is the little-endian block at 8*i. */
  lemma EncodeInt64sLayout(a: seq<Int64>, i: nat)
    requires i < |a|
    ensures |EncodeInt64s(a)| == 8 * |a|
    ensures EncodeInt64s(a)[8 * i..8 * i + 8] == Int64ToBytes(a[i])
    ensures FromLittleEndian(EncodeInt64s(a)[8 * i..8 * i + 8]) == TwosComplement(a[i])
  {
    FlattenLength(Int64Blocks(a), 8);
    FlattenBlock(Int64Blocks(a), 8, i);
    Int64BytesAreLittleEndian(a[i]);
  }

  /** Encoding distributes over concatenation. */
  lemma EncodeInt64sAppend(a: seq<Int64>, b: seq<Int64>)
    ensures EncodeInt64s(a + b) == EncodeInt64s(a) + EncodeInt64s(b)
  {
    assert Int64Blocks(a + b) == Int64Blocks(a) + Int64Blocks(b);
    FlattenAppend(Int64Blocks(a), Int64Blocks(b));
  }

  /** Appending one element appends its eight-byte block: one loop step of Int64ArrayToBytes. */
  lemma EncodeInt64sPush(a: seq<Int64>, v: Int64)
    ensures EncodeInt64s(a + [v]) == EncodeInt64s(a) + Int64ToBytes(v)
  {
    EncodeInt64sAppend(a, [v]);
    assert Int64Blocks([v]) == [Int64ToBytes(v)];
    FlattenSingle(Int64ToBytes(v));
  }

  /** The decoder yields `len(data) / 8` values, value i read from bytes 8*i up to 8*i + 8. */
  lemma DecodeInt64sLayout(data: seq<Byte>)
    ensures |DecodeInt64s(data)| == |data| / 8
    ensures forall i :: 0 <= i < |data| / 8 ==>
      8 * i + 8 <= |data| && DecodeInt64s(data)[i] == BytesToInt64(data[8 * i..8 * i + 8])
  {
    forall i | 0 <= i < |data| / 8
      ensures 8 * i + 8 <= |data| && DecodeInt64s(data)[i] == BytesToInt64(data[8 * i..8 * i + 8])
    {
      ChunkAt(data, 8, i);
    }
  }

  /** Decoding inverts encoding. */
  lemma Int64sRoundTrip(a: seq<Int64>)
    ensures DecodeInt64s(EncodeInt64s(a)) == a
  {
    ChunksOfFlatten(Int64Blocks(a), 8);
    forall i | 0 <= i < |a|
      ensures DecodeInt64s(EncodeInt64s(a))[i] == a[i]
    {
      Int64RoundTrip(a[i]);
    }
  }

  /** Re-encoding the decoded values gives back the data up to its last whole block. */
  lemma Int64sReEncode(data: seq<Byte>)
    ensures EncodeInt64s(DecodeInt64s(data)) == data[..8 * (|data| / 8)]
  {
    var blocks := Chunks(data, 8);
    forall i | 0 <= i < |blocks|
      ensures Int64Blocks(DecodeInt64s(data))[i] == blocks[i]
    {
      BytesRoundTrip(blocks[i]);
    }
    assert Int64Blocks(DecodeInt64s(data)) == blocks;
    FlattenOfChunks(data, 8);
  }

  /** The decoder ignores the trailing `len(data) % 8` bytes. */
  lemma DecodeInt64sIgnoresTail(data: seq<Byte>)
    ensures DecodeInt64s(data) == DecodeInt64s(data[..8 * (|data| / 8)])
  {
    ChunksIgnoreTail(data, 8);
  }

  // ---------------------------------------------------------------------------
  // UUID arrays
  // ---------------------------------------------------------------------------

  /** What UuidArrayToBytes returns: the 16-byte UUIDs concatenated in order. */
  function EncodeUuids(u: seq<Uuid>): (bs: seq<Byte>)
    ensures |bs| == 16 * |u|
  {
    FlattenLength(u, 16);
    Flatten(u)
  }

  /** What BytesToUUIDArray returns: one UUID per whole 16-byte block. */
  function DecodeUuids(data: seq<Byte>): (ids: seq<Uuid>)
    ensures |ids| == |data| / 16
  {
    var blocks := Chunks(data, 16);
    seq(|blocks|, i requires 0 <= i < |blocks| => blocks[i])
  }

  /** The encoding is 16 bytes per UUID, UUID i at position 16*i. */
  lemma EncodeUuidsLayout(u: seq<Uuid>, i: nat)
    requires i < |u|
    ensures |EncodeUuids(u)| == 16 * |u|
    ensures EncodeUuids(u)[16 * i..16 * i + 16] == u[i]
  {
    FlattenLength(u, 16);
    FlattenBlock(u, 16, i);
  }

  /** Encoding distributes over concatenation. */
  lemma EncodeUuidsAppend(u: seq<Uuid>, w: seq<Uuid>)
    ensures EncodeUuids(u + w) == EncodeUuids(u) + EncodeUuids(w)
  {
    FlattenAppend(u, w);
  }

  /** Appending one UUID appends its sixteen bytes: one loop step of UuidArrayToBytes. */
  lemma EncodeUuidsPush(u: seq<Uuid>, id: Uuid)
    ensures EncodeUuids(u + [id]) == EncodeUuids(u) + id
  {
    EncodeUuidsAppend(u, [id]);
    FlattenSingle(id);
  }

  /** The decoder yields `len(data) / 16` UUIDs, UUID i copied from bytes 16*i up to 16*i + 16. */
  lemma DecodeUuidsLayout(data: seq<Byte>)
    ensures |DecodeUuids(data)| == |data| / 16
    ensures forall i :: 0 <= i < |data| / 16 ==>
      16 * i + 16 <= |data| && DecodeUuids(data)[i] == data[16 * i..16 * i + 16]
  {
    forall i | 0 <= i < |data| / 16
      ensures 16 * i + 16 <= |data| && DecodeUuids(data)[i] == data[16 * i..16 * i + 16]
    {
      ChunkAt(data, 16, i);
    }
  }

  /** Decoding inverts encoding. */
  lemma UuidsRoundTrip(u: seq<Uuid>)
    ensures DecodeUuids(EncodeUuids(u)) == u
  {
    ChunksOfFlatten(u, 16);
  }

  /** Re-encoding the decoded UUIDs gives back the data up to its last whole block. */
  lemma UuidsReEncode(data: seq<Byte>)
    ensures EncodeUuids(DecodeUuids(data)) == data[..16 * (|data| / 16)]
  {
    assert DecodeUuids(data) == Chunks(data, 16);
    FlattenOfChunks(data, 16);
  }

  /** The decoder ignores the trailing `len(data) % 16` bytes. */
  lemma DecodeUuidsIgnoresTail(data: seq<Byte>)
    ensures DecodeUuids(data) == DecodeUuids(data[..16 * (|data| / 16)])
  {
    ChunksIgnoreTail(data, 16);
  }

  // ---------------------------------------------------------------------------
  // DbId <-> int64, element by element
  // ---------------------------------------------------------------------------

  /** What DbIdArrayToInt64Array returns: the same values, in the same order, as int64s. */
  function DbIdsToInt64s(ids: seq<DbId>): (a: seq<Int64>)
    ensures |a| == |ids|
    ensures forall i :: 0 <= i < |ids| ==> a[i] as int == ids[i] as int
  {
    seq(|ids|, i requires 0 <= i < |ids| => ids[i] as Int64)
  }

  /** What Int64ArrayToDbIdArray returns: the same values, in the same order, as DbIds. */
  function Int64sToDbIds(a: seq<Int64>): (ids: seq<DbId>)
    ensures |ids| == |a|
    ensures forall i :: 0 <= i < |a| ==> ids[i] as int == a[i] as int
  {
    seq(|a|, i requires 0 <= i < |a| => a[i] as DbId)
  }

  /** With a 64-bit Go `int` the two conversions are mutual inverses; the empty array maps to the empty array. */
  lemma ConversionsInverse(ids: seq<DbId>, a: seq<Int64>)
    ensures Int64sToDbIds(DbIdsToInt64s(ids)) == ids
    ensures DbIdsToInt64s(Int64sToDbIds(a)) == a
    ensures DbIdsToInt64s([]) == [] && Int64sToDbIds([]) == []
  {
  }
}
