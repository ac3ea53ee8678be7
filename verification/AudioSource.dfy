/** Chunked access to loaded audio: ContentAudioSource and FileAudioSource of
    src/audio/audio-source.cc and .h, and the decode loop of Recognize in src/api/services.cc. */
module AudioSource {
  import opened Utils

  const CHUNK_SIZE: nat := 400

  /** The chunks are non-empty, join up to the data from there on, only the last may be short, and
      their number is the quotient rounded up. */
  lemma {:induction false} ChunksCoverData<T>(data: seq<T>, from: nat)
    requires from <= |data|
    ensures var c := Chunks(data, from, CHUNK_SIZE);
      && Flatten(c) == data[from..]
      && (forall i :: 0 <= i < |c| ==> 0 < |c[i]| <= 400)
      && (forall i :: 0 <= i < |c| - 1 ==> |c[i]| == 400)
      && |c| == (|data| - from + 399) / 400
    decreases |data| - from
  {
    ChunksPartition(data, from, CHUNK_SIZE);
    if from + CHUNK_SIZE < |data| {
      ChunksCoverData(data, from + CHUNK_SIZE);
    }
  }

  /** ContentAudioSource counts whole chunks, past the end of the data on the last one. */
  class ContentAudioSource<T> {
    const data: seq<T>
    var nSeenElements: nat
    /** Calls of NextChunk so far. */
    ghost var calls: nat

    ghost predicate Valid()
      reads this
    {
      nSeenElements == calls * CHUNK_SIZE && (calls > 0 ==> (calls - 1) * CHUNK_SIZE < |data|)
    }

    constructor (data: seq<T>)
      ensures Valid() && this.data == data && calls == 0
    {
      this.data, nSeenElements, calls := data, 0, 0;
    }

    predicate HasMoreChunks()
      reads this
    {
      nSeenElements < |data|
    }

    method NextChunk() returns (chunk: seq<T>)
      requires Valid() && HasMoreChunks()
      modifies this
      ensures Valid() && calls == old(calls) + 1
      ensures chunk == Chunk(data, old(calls) * CHUNK_SIZE, CHUNK_SIZE)
    {
      var rangeIdx := nSeenElements;
      nSeenElements := nSeenElements + CHUNK_SIZE;
      var length := Min(CHUNK_SIZE, |data| - rangeIdx);
      chunk := data[rangeIdx..rangeIdx + length];
      calls := calls + 1;
    }

    /** The interface promises the number of NextChunk calls, and this source keeps the promise. */
    function ChunksSeen(): (n: nat)
      requires Valid()
      reads this
      ensures n == calls
    {
      nSeenElements / CHUNK_SIZE
    }
  }

  /** FileAudioSource counts elements. */
  class FileAudioSource<T> {
    const data: seq<T>
    var nSeenElements: nat
    /** Calls of NextChunk so far. */
    ghost var calls: nat

    ghost predicate Valid()
      reads this
    {
      nSeenElements == Min(calls * CHUNK_SIZE, |data|) && (calls > 0 ==> (calls - 1) * CHUNK_SIZE < |data|)
    }

    constructor (data: seq<T>)
      ensures Valid() && this.data == data && calls == 0
    {
      this.data, nSeenElements, calls := data, 0, 0;
    }

    predicate HasMoreChunks()
      reads this
    {
      nSeenElements < |data|
    }

    method NextChunk() returns (chunk: seq<T>)
      requires Valid() && HasMoreChunks()
      modifies this
      ensures Valid() && calls == old(calls) + 1
      ensures chunk == Chunk(data, old(calls) * CHUNK_SIZE, CHUNK_SIZE)
    {
      var rangeIdx := nSeenElements;
      var length := Min(CHUNK_SIZE, |data| - rangeIdx);
      nSeenElements := nSeenElements + length;
      chunk := data[rangeIdx..rangeIdx + length];
      calls := calls + 1;
    }

    /** This source keeps the interface's promise except after a last chunk that is short: then it
        is one call behind. */
    function ChunksSeen(): (n: nat)
      requires Valid()
      reads this
      ensures n == calls <==> HasMoreChunks() || |data| % CHUNK_SIZE == 0
      ensures n != calls ==> n == calls - 1
    {
      nSeenElements / CHUNK_SIZE
    }
  }

  /** The smallest such case: one sample, one chunk, one call, and none counted. */
  method ShortChunkIsMissed() returns (seen: nat, ghost calls: nat)
    ensures calls == 1 && seen == 0
  {
    var source := new FileAudioSource<int>([7]);
    var chunk := source.NextChunk();
    seen, calls := source.ChunksSeen(), source.calls;
  }

  /** A call of Recognizer::Decode. */
  datatype DecodeCall<T> = DecodeCall(waveform: seq<T>, flush: bool)

  /** One call for each chunk, the last one flushing. */
  function DecodeCalls<T>(chunks: seq<seq<T>>): (r: seq<DecodeCall<T>>)
    ensures |r| == |chunks|
  {
    seq(|chunks|, i requires 0 <= i < |chunks| => DecodeCall(chunks[i], i == |chunks| - 1))
  }

  /** The loop of Recognize: every sample is decoded exactly once, in order, and exactly the last
      call flushes. */
  method DecodeAll<T>(source: ContentAudioSource<T>) returns (decoded: seq<DecodeCall<T>>)
    requires source.Valid() && source.calls == 0
    modifies source
    ensures source.Valid() && !source.HasMoreChunks()
    ensures decoded == DecodeCalls(Chunks(source.data, 0, CHUNK_SIZE)) && source.calls == |decoded|
  {
    decoded := [];
    var all := Chunks(source.data, 0, CHUNK_SIZE);
    assert all[0..] == all;
    while source.HasMoreChunks()
      invariant source.Valid() && source.calls == |decoded| <= |all|
      invariant all[|decoded|..] == Chunks(source.data, source.nSeenElements, CHUNK_SIZE)
      invariant decoded == DecodeCalls(all)[..|decoded|]
      decreases |source.data| - source.nSeenElements
    {
      ghost var i := |decoded|;
      var chunk := source.NextChunk();
      assert all[i..][0] == all[i] == chunk && all[i + 1..] == all[i..][1..];
      if |chunk| > 0 {
        decoded := decoded + [DecodeCall(chunk, !source.HasMoreChunks())];
      }
    }
  }

  /** The same loop over a file: the chunks are those of the content source, and the loop ends with
      nothing left. */
  method DecodeFile<T>(source: FileAudioSource<T>) returns (decoded: seq<DecodeCall<T>>)
    requires source.Valid() && source.calls == 0
    modifies source
    ensures source.Valid() && !source.HasMoreChunks()
    ensures decoded == DecodeCalls(Chunks(source.data, 0, CHUNK_SIZE)) && source.calls == |decoded|
  {
    decoded := [];
    var all := Chunks(source.data, 0, CHUNK_SIZE);
    assert all[0..] == all;
    while source.HasMoreChunks()
      invariant source.Valid() && source.calls == |decoded| <= |all|
      invariant all[|decoded|..] == Chunks(source.data, source.calls * CHUNK_SIZE, CHUNK_SIZE)
      invariant decoded == DecodeCalls(all)[..|decoded|]
      decreases |source.data| - source.nSeenElements
    {
      ghost var i := |decoded|;
      var chunk := source.NextChunk();
      assert all[i..][0] == all[i] == chunk && all[i + 1..] == all[i..][1..];
      if |chunk| > 0 {
        decoded := decoded + [DecodeCall(chunk, !source.HasMoreChunks())];
      }
    }
  }

  function Waveforms<T>(calls: seq<DecodeCall<T>>): (r: seq<seq<T>>)
    ensures |r| == |calls|
  {
    seq(|calls|, i requires 0 <= i < |calls| => calls[i].waveform)
  }

  /** What the decoder has heard at the end is the whole audio. */
  lemma DecodedIsWholeAudio<T>(data: seq<T>)
    ensures Flatten(Waveforms(DecodeCalls(Chunks(data, 0, CHUNK_SIZE)))) == data
    ensures var calls := DecodeCalls(Chunks(data, 0, CHUNK_SIZE));
      forall i :: 0 <= i < |calls| ==> calls[i].waveform != [] && (calls[i].flush <==> i == |calls| - 1)
  {
    ChunksCoverData(data, 0);
    var chunks := Chunks(data, 0, CHUNK_SIZE);
    assert Waveforms(DecodeCalls(chunks)) == chunks;
    assert data[0..] == data;
  }
}
