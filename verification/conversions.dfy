/**
 * The id conversions of models/conversions.go: a `make`'d slice of the
 * argument's length, filled index by index with the converted element.
 */
module Conversions {
  import opened GoTypes
  import opened Models
  import opened Codec

  /** DbIdArrayToInt64Array: the same values, in the same order, as int64s. */
  method DbIdArrayToInt64Array(arr: seq<DbId>) returns (int64Array: array<Int64>)
    ensures int64Array[..] == DbIdsToInt64s(arr)
    ensures fresh(int64Array)
  {
    int64Array := new Int64[|arr|];
    for i := 0 to |arr|
      invariant forall k :: 0 <= k < i ==> int64Array[k] == arr[k] as Int64
    {
      int64Array[i] := arr[i] as Int64;
    }
  }

  /** Int64ArrayToDbIdArray: the same values, in the same order, as DbIds. */
  method Int64ArrayToDbIdArray(arr: seq<Int64>) returns (dbIdArray: array<DbId>)
    ensures dbIdArray[..] == Int64sToDbIds(arr)
    ensures fresh(dbIdArray)
  {
    dbIdArray := new DbId[|arr|];
    for i := 0 to |arr|
      invariant forall k :: 0 <= k < i ==> dbIdArray[k] == arr[k] as DbId
    {
      dbIdArray[i] := arr[i] as DbId;
    }
  }
}
