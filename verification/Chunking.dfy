/** How MemChanFile.Sync of core/sys/util.go cuts the pending bytes. */
module Chunking {
  import opened Support
  import opened Streams

  /** The chunks Sync cuts the pending bytes into. */
  function Chunks<B>(data: seq<B>, size: nat): seq<seq<B>>
    requires data != [] ==> size >= 1
    decreases |data|
  {
    if data == [] then []
    else if |data| <= size then [data]
    else [data[..size]] + Chunks(data[size..], size)
  }

  /** All chunks are full except the last, which is not empty. */
  predicate Full<B>(chunks: seq<seq<B>>, size: nat) {
    forall k :: 0 <= k < |chunks| ==> 1 <= |chunks[k]| <= size && (k < |chunks| - 1 ==> |chunks[k]| == size)
  }

  lemma {:induction false} ChunksConserve<B>(data: seq<B>, size: nat)
    requires data != [] ==> size >= 1
    ensures Flatten(Chunks(data, size)) == data
    ensures Full(Chunks(data, size), size)
    decreases |data|
  {
    if |data| > size {
      ChunksConserve(data[size..], size);
      FlattenHead(data[..size], Chunks(data[size..], size));
      assert data == data[..size] + data[size..];
    } else if data != [] {
      FlattenOne(data);
    }
  }

  /** There is only one way to cut the data into full chunks, and Chunks is it. */
  lemma {:induction false} ChunksAreUnique<B>(chunks: seq<seq<B>>, data: seq<B>, size: nat)
    requires data != [] ==> size >= 1
    requires Full(chunks, size) && Flatten(chunks) == data
    ensures chunks == Chunks(data, size)
    decreases |chunks|
  {
    if chunks != [] {
      var c, rest := chunks[0], chunks[1..];
      assert chunks == [c] + rest;
      FlattenHead(c, rest);
      if rest == [] {
        assert data == c;
      } else {
        NonEmptyChunks(rest, size);
        assert data[..size] == c && data[size..] == Flatten(rest);
        ChunksAreUnique(rest, data[size..], size);
      }
    }
  }

  lemma NonEmptyChunks<B>(chunks: seq<seq<B>>, size: nat)
    requires chunks != [] && Full(chunks, size)
    ensures Flatten(chunks) != []
  {
    assert |chunks[|chunks| - 1]| >= 1;
  }

  lemma {:induction false} ChunkCount<B>(data: seq<B>, size: nat)
    requires size >= 1
    ensures |Chunks(data, size)| == CeilDiv(|data|, size)
    decreases |data|
  {
    if |data| > size {
      ChunkCount(data[size..], size);
      CeilDivStep(|data|, size);
    } else if data != [] {
      assert CeilDiv(|data|, size) == 1 by {
        CeilDivIsLeast(|data|, size, 0);
        CeilDivIsLeast(|data|, size, 1);
      }
    } else {
      CeilDivIsLeast(0, size, 0);
    }
  }
}
