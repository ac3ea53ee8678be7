/** Small notions shared by the other modules. */
module Utils {

  datatype Option<T> = None | Some(value: T)

  function Max(a: int, b: int): int { if a >= b then a else b }

  function Min(a: int, b: int): int { if a <= b then a else b }

  // ---------------------------------------------------------------- splitting into chunks

  /** The chunk that starts at element `from`: `size` elements, or what is left. */
  function Chunk<T>(data: seq<T>, from: nat, size: nat): seq<T>
    requires from < |data|
  {
    data[from..Min(from + size, |data|)]
  }

  /** The chunks from element `from` on. */
  function Chunks<T>(data: seq<T>, from: nat, size: nat): seq<seq<T>>
    requires size > 0
    decreases |data| - from
  {
    if from >= |data| then [] else [Chunk(data, from, size)] + Chunks(data, from + size, size)
  }

  function Flatten<T>(chunks: seq<seq<T>>): seq<T>
  {
    if chunks == [] then [] else chunks[0] + Flatten(chunks[1..])
  }

  ghost predicate NonEmpty<T>(chunks: seq<seq<T>>) { forall i :: 0 <= i < |chunks| ==> |chunks[i]| > 0 }

  /** The chunks partition the data from there on, in order; none is empty, none longer than `size`,
      and all but the last are full. */
  lemma {:induction false} ChunksPartition<T>(data: seq<T>, from: nat, size: nat)
    requires from <= |data| && size > 0
    ensures var c := Chunks(data, from, size);
      && Flatten(c) == data[from..]
      && NonEmpty(c)
      && (forall i :: 0 <= i < |c| - 1 ==> |c[i]| == size)
      && (forall i :: 0 <= i < |c| ==> |c[i]| <= size)
    decreases |data| - from
  {
    if from + size < |data| {
      ChunksPartition(data, from + size, size);
      assert data[from..] == Chunk(data, from, size) + data[from + size..];
    } else if from < |data| {
      assert Chunk(data, from, size) == data[from..];
      assert Chunks(data, from, size) == [data[from..]] + [];
      assert Flatten([data[from..]]) == data[from..] + Flatten<T>([]);
    }
  }

  lemma OneMore(i: int, size: nat)
    ensures (i + 1) * size == i * size + size
  {
  }

  /** Chunk i starts i chunk sizes further on. */
  lemma {:induction false} NthChunk<T>(data: seq<T>, from: nat, size: nat, i: nat)
    requires size > 0 && i < |Chunks(data, from, size)|
    ensures from + i * size < |data| && Chunks(data, from, size)[i] == Chunk(data, from + i * size, size)
    decreases i
  {
    if i > 0 {
      NthChunk(data, from + size, size, i - 1);
      OneMore(i - 1, size);
    }
  }

  /** The chunk sizes reach to the end of the data, and those before the last chunk do not. */
  lemma {:induction false} ChunkCount<T>(data: seq<T>, from: nat, size: nat)
    requires size > 0 && from < |data|
    ensures var k := |Chunks(data, from, size)|;
      k > 0 && (k - 1) * size < |data| - from <= k * size
    decreases |data| - from
  {
    if from + size < |data| {
      ChunkCount(data, from + size, size);
      var k := |Chunks(data, from, size)|;
      assert |Chunks(data, from + size, size)| == k - 1;
      OneMore(k - 2, size);
      OneMore(k - 1, size);
    } else {
      assert Chunks(data, from + size, size) == [];
    }
  }

  lemma {:induction false} FlattenAppend<T>(chunks: seq<seq<T>>, chunk: seq<T>)
    ensures Flatten(chunks + [chunk]) == Flatten(chunks) + chunk
  {
    var all := chunks + [chunk];
    if chunks == [] {
      assert Flatten(all[1..]) == [];
    } else {
      FlattenAppend(chunks[1..], chunk);
      assert all[1..] == chunks[1..] + [chunk];
    }
  }

  /** Elements in the first n chunks. */
  function LengthUpTo<T>(chunks: seq<seq<T>>, n: nat): nat
    requires n <= |chunks|
  {
    if n == 0 then 0 else LengthUpTo(chunks, n - 1) + |chunks[n - 1]|
  }

  lemma {:induction false} LengthIsFlat<T>(chunks: seq<seq<T>>, n: nat)
    requires n <= |chunks|
    ensures LengthUpTo(chunks, n) == |Flatten(chunks[..n])|
  {
    if n > 0 {
      LengthIsFlat(chunks, n - 1);
      FlattenAppend(chunks[..n - 1], chunks[n - 1]);
      assert chunks[..n] == chunks[..n - 1] + [chunks[n - 1]];
    }
  }
}
