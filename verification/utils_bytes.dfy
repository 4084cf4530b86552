/**
 * The packing helpers of utils/bytes.go, in the imperative form of the Go
 * code: a growing byte buffer, `make`'d result arrays filled by index, and
 * loops whose invariants tie the work done so far to the specification
 * functions of the Codec module.
 */
module UtilsBytes {
  import opened GoTypes
  import opened Models
  import opened Codec

  /** Int64ArrayToBytes: `binary.Write` of each element, little-endian, into a `bytes.Buffer`. */
  method Int64ArrayToBytes(arr: seq<Int64>) returns (bytes: seq<Byte>)
    ensures bytes == EncodeInt64s(arr)
  {
    var buf: seq<Byte> := [];
    for i := 0 to |arr|
      invariant buf == EncodeInt64s(arr[..i])
    {
      EncodeInt64sPush(arr[..i], arr[i]);
      assert arr[..i + 1] == arr[..i] + [arr[i]];
      buf := buf + Int64ToBytes(arr[i]);
    }
    assert arr[..|arr|] == arr;
    bytes := buf;
  }

  /**
   * BytesToInt64Array: `len(data) / 8` reads of eight bytes each from a buffer
   * over `data`. Each read finds eight unread bytes, so the panic on a short
   * read is never reached.
   */
  method BytesToInt64Array(data: seq<Byte>) returns (int64Array: array<Int64>)
    ensures int64Array[..] == DecodeInt64s(data)
    ensures fresh(int64Array)
  {
    var unread := data;
    var arrayLength := |data| / 8;
    int64Array := new Int64[arrayLength];
    for i := 0 to arrayLength
      invariant unread == data[8 * i..]
      invariant forall k :: 0 <= k < i ==> int64Array[k] == BytesToInt64(data[8 * k..8 * k + 8])
    {
      assert |unread| >= 8;
      assert unread[..8] == data[8 * i..8 * i + 8];
      int64Array[i] := BytesToInt64(unread[..8]);
      unread := unread[8..];
    }
    DecodeInt64sLayout(data);
  }

  /** Int64ArrayToDbIdArray: a `make`'d array filled element by element. */
  method Int64ArrayToDbIdArray(arr: seq<Int64>) returns (dbIdArray: array<DbId>)
    ensures dbIdArray[..] == Int64sToDbIds(arr)
    ensures fresh(dbIdArray)
  {
    dbIdArray := new DbId[|arr|];
    for i := 0 to |arr|
      invariant forall k :: 0 <= k < i ==> dbIdArray[k] == arr[k] as DbId
    {
      dbIdArray[i] := arr[i] as DbId;
    }
  }

  /** UuidArrayToBytes: each UUID's sixteen bytes appended in turn. */
  method UuidArrayToBytes(arr: seq<Uuid>) returns (byteArray: seq<Byte>)
    ensures byteArray == EncodeUuids(arr)
  {
    byteArray := [];
    for i := 0 to |arr|
      invariant byteArray == EncodeUuids(arr[..i])
    {
      EncodeUuidsPush(arr[..i], arr[i]);
      assert arr[..i + 1] == arr[..i] + [arr[i]];
      byteArray := byteArray + arr[i];
    }
    assert arr[..|arr|] == arr;
  }

  /** BytesToUUIDArray: `len(data) / 16` zero UUIDs, each overwritten by a copy of its block. */
  method BytesToUUIDArray(data: seq<Byte>) returns (uuidArray: array<Uuid>)
    ensures uuidArray[..] == DecodeUuids(data)
    ensures fresh(uuidArray)
  {
    var arrayLength := |data| / 16;
    uuidArray := new Uuid[arrayLength](_ => NIL_UUID);
    for i := 0 to arrayLength
      invariant forall k :: 0 <= k < i ==> uuidArray[k] == data[k * 16..(k + 1) * 16]
    {
      uuidArray[i] := data[i * 16..(i + 1) * 16];
    }
    DecodeUuidsLayout(data);
  }

  /** DbIdArrayToInt64Array: a `make`'d array filled element by element. */
  method DbIdArrayToInt64Array(arr: seq<DbId>) returns (int64Array: array<Int64>)
    ensures int64Array[..] == DbIdsToInt64s(arr)
    ensures fresh(int64Array)
  {
    int64Array := new Int64[|arr|];
    for i := 0 to |arr|
      invariant forall k :: 0 <= k < i ==> int64Array[k] == arr[k] as Int64
    {
      int64Array[i] := arr[i] as Int64;
    }
  }
}
