/**
 * Fixed-size block framing, the shape shared by both packing codecs of
 * utils/bytes.go: an encoder appends one k-byte block per element, and a
 * decoder reads back `len(data) / k` whole blocks and ignores the rest.
 */
module Blocks {

  /** The blocks concatenated in order. */
  function Flatten<T>(blocks: seq<seq<T>>): seq<T> {
    if blocks == [] then [] else blocks[0] + Flatten(blocks[1..])
  }

  /** Every block has length k. */
  ghost predicate Uniform<T>(blocks: seq<seq<T>>, k: nat) {
    forall i :: 0 <= i < |blocks| ==> |blocks[i]| == k
  }

  /** The whole k-element blocks of `data`, in order; the trailing `|data| % k` elements are dropped. */
  function Chunks<T>(data: seq<T>, k: nat): (blocks: seq<seq<T>>)
    requires k > 0
    ensures Uniform(blocks, k)
    ensures k * |blocks| <= |data| < k * |blocks| + k
    decreases |data|
  {
    if |data| < k then [] else [data[..k]] + Chunks(data[k..], k)
  }

  lemma {:induction false} FlattenLength<T>(blocks: seq<seq<T>>, k: nat)
    requires Uniform(blocks, k)
    ensures |Flatten(blocks)| == k * |blocks|
  {
    if blocks != [] {
      FlattenLength(blocks[1..], k);
    }
  }

  /** Flattening distributes over concatenation. */
  lemma {:induction false} FlattenAppend<T>(a: seq<seq<T>>, b: seq<seq<T>>)
    ensures Flatten(a + b) == Flatten(a) + Flatten(b)
  {
    if a == [] {
      assert a + b == b;
    } else {
      assert (a + b)[1..] == a[1..] + b;
      FlattenAppend(a[1..], b);
    }
  }

  lemma FlattenSingle<T>(block: seq<T>)
    ensures Flatten([block]) == block
  {
    assert [block][1..] == [];
  }

  /** Block i of a uniform sequence occupies positions k*i up to k*i + k of the flattening. */
  lemma {:induction false} FlattenBlock<T>(blocks: seq<seq<T>>, k: nat, i: nat)
    requires Uniform(blocks, k) && i < |blocks|
    ensures k * i + k <= |Flatten(blocks)|
    ensures Flatten(blocks)[k * i..k * i + k] == blocks[i]
  {
    FlattenLength(blocks, k);
    if i > 0 {
      FlattenBlock(blocks[1..], k, i - 1);
      var rest := Flatten(blocks[1..]);
      assert Flatten(blocks) == blocks[0] + rest;
      assert k * i == k + k * (i - 1);
      assert Flatten(blocks)[k * i..k * i + k] == rest[k * (i - 1)..k * (i - 1) + k];
    }
  }

  /** Block i of the chunking is the slice k*i up to k*i + k of the data. */
  lemma {:induction false} ChunkAt<T>(data: seq<T>, k: nat, i: nat)
    requires k > 0 && i < |Chunks(data, k)|
    ensures k * i + k <= |data|
    ensures Chunks(data, k)[i] == data[k * i..k * i + k]
    decreases i
  {
    if i > 0 {
      ChunkAt(data[k..], k, i - 1);
      assert k * i == k + k * (i - 1);
    }
  }

  /** Chunking undoes flattening. */
  lemma {:induction false} ChunksOfFlatten<T>(blocks: seq<seq<T>>, k: nat)
    requires k > 0 && Uniform(blocks, k)
    ensures Chunks(Flatten(blocks), k) == blocks
  {
    if blocks != [] {
      FlattenLength(blocks[1..], k);
      var data := Flatten(blocks);
      assert data == blocks[0] + Flatten(blocks[1..]);
      assert data[..k] == blocks[0];
      assert data[k..] == Flatten(blocks[1..]);
      ChunksOfFlatten(blocks[1..], k);
    }
  }

  /** Flattening the chunks gives back the data up to its last whole block. */
  lemma {:induction false} FlattenOfChunks<T>(data: seq<T>, k: nat)
    requires k > 0
    ensures Flatten(Chunks(data, k)) == data[..k * |Chunks(data, k)|]
    decreases |data|
  {
    if |data| >= k {
      var rest := Chunks(data[k..], k);
      FlattenOfChunks(data[k..], k);
      assert Chunks(data, k) == [data[..k]] + rest;
      assert k * |Chunks(data, k)| == k + k * |rest|;
      assert data[..k + k * |rest|] == data[..k] + data[k..][..k * |rest|];
    }
  }

  /** The chunking ignores the trailing partial block. */
  lemma ChunksIgnoreTail<T>(data: seq<T>, k: nat)
    requires k > 0
    ensures Chunks(data, k) == Chunks(data[..k * |Chunks(data, k)|], k)
  {
    FlattenOfChunks(data, k);
    ChunksOfFlatten(Chunks(data, k), k);
  }
}
