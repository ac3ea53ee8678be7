/** Chunking, edge padding and averaging of XvectorNnet::Compute (src/diarization.cc).

  The network is an arbitrary function from a chunk of feature rows to one component of its
  embedding; the components are averaged independently. */
module Xvector {
  import opened Utils

  // ---------------------------------------------------------------- reference

  function Clamp(i: int, hi: nat): nat { if i < 0 then 0 else if i > hi then hi else i }

  function LeftContext(length: nat, minChunkSize: int): int { (minChunkSize - length) / 2 }

  function Repeat<Row>(row: Row, n: nat): (r: seq<Row>)
    ensures |r| == n && forall i :: 0 <= i < n ==> r[i] == row
  {
    if n == 0 then [] else Repeat(row, n - 1) + [row]
  }

  /** A chunk shorter than the minimum is extended by copies of its first and last rows. */
  function Padded<Row>(chunk: seq<Row>, minChunkSize: int): seq<Row>
    requires |chunk| > 0
  {
    if |chunk| >= minChunkSize then chunk
    else
      var left := LeftContext(|chunk|, minChunkSize);
      Repeat(chunk[0], left) + chunk + Repeat(chunk[|chunk| - 1], minChunkSize - |chunk| - left)
  }

  /** n copies of x added up. */
  ghost function Scaled(n: nat, x: real): real
  {
    if n == 0 then 0.0 else Scaled(n - 1, x) + x
  }

  /** Sum over the first n chunks of chunk length times network output on the padded chunk. */
  ghost function WeightedSum<Row>(chunks: seq<seq<Row>>, minChunkSize: int, net: seq<Row> -> real, n: nat): real
    requires NonEmpty(chunks) && n <= |chunks|
  {
    if n == 0 then 0.0
    else
      assert |chunks[n - 1]| > 0;
      WeightedSum(chunks, minChunkSize, net, n - 1)
        + Scaled(|chunks[n - 1]|, net(Padded(chunks[n - 1], minChunkSize)))
  }

  function ChunkSizeFor(numRows: nat, chunkSize: int): int
  {
    if numRows < chunkSize || chunkSize == -1 then numRows else chunkSize
  }

  // ---------------------------------------------------------------- lemmas

  lemma {:induction false} ScaledAdds(a: nat, b: nat, x: real)
    ensures Scaled(a + b, x) == Scaled(a, x) + Scaled(b, x)
  {
    if b > 0 { ScaledAdds(a, b - 1, x); }
  }

  lemma {:induction false} ScaledMonotone(n: nat, x: real, y: real)
    requires x <= y
    ensures Scaled(n, x) <= Scaled(n, y)
    ensures n > 0 && x < y ==> Scaled(n, x) < Scaled(n, y)
  {
    if n > 0 { ScaledMonotone(n - 1, x, y); }
  }

  lemma {:induction false} ScaledIsProduct(n: nat, x: real)
    ensures Scaled(n, x) == n as real * x
  {
    if n > 0 {
      ScaledIsProduct(n - 1, x);
      assert n as real * x == (n - 1) as real * x + x;
    }
  }

  /** The weighted sum stays between the sums that constant outputs lo and hi would give. */
  lemma {:induction false} WeightedSumBounds<Row>(chunks: seq<seq<Row>>, minChunkSize: int,
                                                  net: seq<Row> -> real, lo: real, hi: real, n: nat)
    requires NonEmpty(chunks) && n <= |chunks|
    requires forall i :: 0 <= i < |chunks| ==> lo <= net(Padded(chunks[i], minChunkSize)) <= hi
    ensures Scaled(LengthUpTo(chunks, n), lo) <= WeightedSum(chunks, minChunkSize, net, n)
         <= Scaled(LengthUpTo(chunks, n), hi)
  {
    if n > 0 {
      WeightedSumBounds(chunks, minChunkSize, net, lo, hi, n - 1);
      var length, before := |chunks[n - 1]|, LengthUpTo(chunks, n - 1);
      var x := net(Padded(chunks[n - 1], minChunkSize));
      ScaledMonotone(length, lo, x);
      ScaledMonotone(length, x, hi);
      ScaledAdds(before, length, lo);
      ScaledAdds(before, length, hi);
    }
  }

  /** All chunks together have all rows. */
  lemma AllRows<Row>(rows: seq<Row>, size: nat)
    requires size > 0
    ensures var chunks := Chunks(rows, 0, size); NonEmpty(chunks) && LengthUpTo(chunks, |chunks|) == |rows|
  {
    var chunks := Chunks(rows, 0, size);
    ChunksPartition(rows, 0, size);
    LengthIsFlat(chunks, |chunks|);
    assert chunks[..|chunks|] == chunks && rows[0..] == rows;
  }

  /** Whatever Compute returns as the average lies between any bounds on the network's outputs. */
  lemma AverageIsConvex<Row>(features: seq<Row>, chunkSize: int, minChunkSize: int, net: seq<Row> -> real,
                             avg: real, lo: real, hi: real)
    requires |features| >= 1 && (chunkSize == -1 || chunkSize >= 1)
    requires var chunks := Chunks(features, 0, ChunkSizeFor(|features|, chunkSize));
      && NonEmpty(chunks) && Scaled(|features|, avg) == WeightedSum(chunks, minChunkSize, net, |chunks|)
      && forall i :: 0 <= i < |chunks| ==> lo <= net(Padded(chunks[i], minChunkSize)) <= hi
    ensures lo <= avg <= hi
  {
    var size := ChunkSizeFor(|features|, chunkSize);
    var chunks := Chunks(features, 0, size);
    AllRows(features, size);
    WeightedSumBounds(chunks, minChunkSize, net, lo, hi, |chunks|);
    if avg < lo { ScaledMonotone(|features|, avg, lo); }
    if hi < avg { ScaledMonotone(|features|, hi, avg); }
  }

  /** Every row of a padded chunk is the source row at the clamped distance from the left edge,
      and the chunk sits in the middle, the right side getting the odd row. */
  lemma PaddedIsClamped<Row>(chunk: seq<Row>, minChunkSize: int, i: nat)
    requires 0 < |chunk| < minChunkSize && i < minChunkSize
    ensures var left := LeftContext(|chunk|, minChunkSize);
      && left <= minChunkSize - |chunk| - left <= left + 1
      && |Padded(chunk, minChunkSize)| == minChunkSize
      && Padded(chunk, minChunkSize)[i] == chunk[Clamp(i - left, |chunk| - 1)]
  {
  }

  lemma ProductMonotone(i: int, k: int, size: nat)
    requires i <= k
    ensures i * size <= k * size
  {
  }

  lemma CeilBounds(n: nat, d: nat)
    requires n > 0 && d > 0
    ensures n <= (n + d - 1) / d * d < n + d
  {
  }

  /** At most one number of whole chunks just reaches n. */
  lemma CeilUnique(n: nat, d: nat, j: int, k: int)
    requires j * d < n + d && n <= k * d
    ensures j <= k
  {
    assert (k + 1) * d == k * d + d;
    if k + 1 <= j { ProductMonotone(k + 1, j, d); }
  }

  /** Rounding the division up gives the number of chunks, and chunk i starts at the i-th multiple of
      the chunk size. */
  lemma ChunkStarts<Row>(rows: seq<Row>, size: nat, i: nat)
    requires |rows| > 0 && size > 0
    ensures |Chunks(rows, 0, size)| == (|rows| + size - 1) / size
    ensures i < |Chunks(rows, 0, size)| ==>
      i * size < |rows| && Chunks(rows, 0, size)[i] == Chunk(rows, i * size, size)
  {
    var n, c, k := |rows|, |Chunks(rows, 0, size)|, (|rows| + size - 1) / size;
    CeilBounds(n, size);
    ChunkCount(rows, 0, size);
    assert c * size == (c - 1) * size + size;
    CeilUnique(n, size, c, k);
    CeilUnique(n, size, k, c);
    if i < c { NthChunk(rows, 0, size, i); }
  }

  /** Copies of the first row, the chunk and copies of the last row make up the padded chunk. */
  lemma PaddedByRows<Row>(chunk: seq<Row>, minChunkSize: int, p: seq<Row>)
    requires 0 < |chunk| < minChunkSize == |p|
    requires var left := LeftContext(|chunk|, minChunkSize);
      && (forall j :: 0 <= j < left ==> p[j] == chunk[0])
      && (forall j :: left <= j < left + |chunk| ==> p[j] == chunk[j - left])
      && (forall j :: left + |chunk| <= j < minChunkSize ==> p[j] == chunk[|chunk| - 1])
    ensures p == Padded(chunk, minChunkSize)
  {
    var left, n := LeftContext(|chunk|, minChunkSize), |chunk|;
    assert p[..left] == Repeat(chunk[0], left);
    assert p[left..left + n] == chunk;
    assert p[left + n..] == Repeat(chunk[n - 1], minChunkSize - n - left);
    assert p == p[..left] + p[left..left + n] + p[left + n..];
  }

  // ---------------------------------------------------------------- what the average is

  /** What the network is given for a slice of rows: the slice itself when it is long enough, else as
      many rows as it needs, row i being the slice's row i less the left edge, or the nearest there is;
      the right edge is as long as the left one or one longer. */
  ghost predicate IsNetworkInput<Row(!new)>(slice: seq<Row>, minChunkSize: int, input: seq<Row>)
    requires slice != []
  {
    if |slice| >= minChunkSize then input == slice
    else
      var left := (minChunkSize - |slice|) / 2;
      && |input| == minChunkSize
      && forall i :: 0 <= i < |input| ==>
           input[i] == slice[if i < left then 0 else if i - left < |slice| then i - left else |slice| - 1]
  }

  /** The rows cut into slices of the given size, the last one possibly shorter. */
  ghost predicate AreSlices<Row(!new)>(rows: seq<Row>, size: nat, slices: seq<seq<Row>>)
    requires size > 0
  {
    && |slices| == (|rows| + size - 1) / size
    && forall i :: 0 <= i < |slices| ==>
         i * size < |rows| && slices[i] != [] && slices[i] == rows[i * size..Min(i * size + size, |rows|)]
  }

  /** Length times network output, summed over the first n slices. */
  ghost function SliceSum<Row>(slices: seq<seq<Row>>, inputs: seq<seq<Row>>, net: seq<Row> -> real, n: nat): real
    requires n <= |slices| == |inputs|
  {
    if n == 0 then 0.0
    else SliceSum(slices, inputs, net, n - 1) + Scaled(|slices[n - 1]|, net(inputs[n - 1]))
  }

  /** The average over all rows, in terms of the rows alone; without a chunk size, or with one larger
      than the rows are many, there is one slice. */
  ghost predicate IsAverage<Row(!new)>(features: seq<Row>, chunkSize: int, minChunkSize: int,
                                       net: seq<Row> -> real, avg: real)
    requires |features| >= 1 && (chunkSize == -1 || chunkSize >= 1)
  {
    var size := if chunkSize == -1 || |features| < chunkSize then |features| else chunkSize;
    exists slices, inputs ::
      && AreSlices(features, size, slices) && |inputs| == |slices|
      && (forall i :: 0 <= i < |slices| ==> IsNetworkInput(slices[i], minChunkSize, inputs[i]))
      && Scaled(|features|, avg) == SliceSum(slices, inputs, net, |slices|)
  }

  lemma PaddedIsInput<Row(!new)>(chunk: seq<Row>, minChunkSize: int)
    requires chunk != []
    ensures IsNetworkInput(chunk, minChunkSize, Padded(chunk, minChunkSize))
  {
    if |chunk| < minChunkSize {
      var left := LeftContext(|chunk|, minChunkSize);
      var p := Padded(chunk, minChunkSize);
      PaddedIsClamped(chunk, minChunkSize, 0);
      forall i | 0 <= i < |p|
        ensures p[i] == chunk[if i < left then 0 else if i - left < |chunk| then i - left else |chunk| - 1]
      {
        PaddedIsClamped(chunk, minChunkSize, i);
      }
    }
  }

  /** What the network is given for the chunks. */
  ghost function Inputs<Row>(chunks: seq<seq<Row>>, minChunkSize: int): (r: seq<seq<Row>>)
    requires NonEmpty(chunks)
    ensures |r| == |chunks| && forall i :: 0 <= i < |r| ==> |chunks[i]| > 0 && r[i] == Padded(chunks[i], minChunkSize)
  {
    seq(|chunks|, i requires 0 <= i < |chunks| => assert |chunks[i]| > 0; Padded(chunks[i], minChunkSize))
  }

  lemma {:induction false} SumOfSlices<Row>(chunks: seq<seq<Row>>, inputs: seq<seq<Row>>, minChunkSize: int,
                                            net: seq<Row> -> real, n: nat)
    requires NonEmpty(chunks) && n <= |chunks| == |inputs|
    requires forall i :: 0 <= i < |chunks| ==> |chunks[i]| > 0 && inputs[i] == Padded(chunks[i], minChunkSize)
    ensures SliceSum(chunks, inputs, net, n) == WeightedSum(chunks, minChunkSize, net, n)
  {
    if n > 0 {
      SumOfSlices(chunks, inputs, minChunkSize, net, n - 1);
      assert |chunks[n - 1]| > 0 && inputs[n - 1] == Padded(chunks[n - 1], minChunkSize);
    }
  }

  lemma ChunksAreSlices<Row(!new)>(rows: seq<Row>, size: nat)
    requires |rows| > 0 && size > 0
    ensures AreSlices(rows, size, Chunks(rows, 0, size))
  {
    var chunks := Chunks(rows, 0, size);
    ChunksPartition(rows, 0, size);
    ChunkStarts(rows, size, 0);
    forall i | 0 <= i < |chunks|
      ensures i * size < |rows| && chunks[i] != [] && chunks[i] == rows[i * size..Min(i * size + size, |rows|)]
    {
      ChunkStarts(rows, size, i);
      assert |chunks[i]| > 0;
    }
  }

  lemma AverageIsOverSlices<Row(!new)>(features: seq<Row>, chunkSize: int, minChunkSize: int,
                                       net: seq<Row> -> real, avg: real)
    requires |features| >= 1 && (chunkSize == -1 || chunkSize >= 1)
    requires var chunks := Chunks(features, 0, ChunkSizeFor(|features|, chunkSize));
      NonEmpty(chunks) && Scaled(|features|, avg) == WeightedSum(chunks, minChunkSize, net, |chunks|)
    ensures IsAverage(features, chunkSize, minChunkSize, net, avg)
  {
    var size := ChunkSizeFor(|features|, chunkSize);
    var chunks := Chunks(features, 0, size);
    var inputs := Inputs(chunks, minChunkSize);
    ChunksAreSlices(features, size);
    SumOfSlices(chunks, inputs, minChunkSize, net, |chunks|);
    forall i | 0 <= i < |chunks| ensures IsNetworkInput(chunks[i], minChunkSize, inputs[i]) {
      PaddedIsInput(chunks[i], minChunkSize);
    }
  }

  /** One slice that is long enough: the average is the network's output on all rows. */
  lemma OneSlice<Row>(features: seq<Row>, chunkSize: int, minChunkSize: int, net: seq<Row> -> real, avg: real)
    requires |features| >= 1 && (chunkSize == -1 || chunkSize >= |features|) && |features| >= minChunkSize
    requires var chunks := Chunks(features, 0, ChunkSizeFor(|features|, chunkSize));
      NonEmpty(chunks) && Scaled(|features|, avg) == WeightedSum(chunks, minChunkSize, net, |chunks|)
    ensures avg == net(features)
  {
    var n, x := |features|, net(features);
    assert Chunks(features, n, n) == [];
    var chunks := Chunks(features, 0, n);
    assert Chunk(features, 0, n) == features;
    assert chunks == [features] + [];
    assert WeightedSum(chunks, minChunkSize, net, 0) == 0.0;
    assert WeightedSum(chunks, minChunkSize, net, 1) == Scaled(n, x);
    if avg < x { ScaledMonotone(n, avg, x); }
    if x < avg { ScaledMonotone(n, x, avg); }
  }

  // ---------------------------------------------------------------- the source's code

  /** Writes the padded chunk row by row: the left edge, the right edge, then the chunk itself.  The
      matrix starts out zero, and every row of it is overwritten. */
  method PadChunk<Row>(chunk: seq<Row>, minChunkSize: int, zero: Row) returns (paddedFeatures: array<Row>)
    requires 0 < |chunk| < minChunkSize
    ensures fresh(paddedFeatures) && paddedFeatures[..] == Padded(chunk, minChunkSize)
  {
    var offset := |chunk|;
    paddedFeatures := new Row[minChunkSize](_ => zero);
    var leftContext := (minChunkSize - offset) / 2;
    var rightContext := minChunkSize - offset - leftContext;
    for i := 0 to leftContext
      invariant forall j :: 0 <= j < i ==> paddedFeatures[j] == chunk[0]
    {
      paddedFeatures[i] := chunk[0];
    }
    for i := 0 to rightContext
      invariant forall j :: 0 <= j < leftContext ==> paddedFeatures[j] == chunk[0]
      invariant forall j :: minChunkSize - i <= j < minChunkSize ==> paddedFeatures[j] == chunk[offset - 1]
    {
      paddedFeatures[minChunkSize - i - 1] := chunk[offset - 1];
    }
    for i := 0 to offset
      invariant forall j :: 0 <= j < leftContext ==> paddedFeatures[j] == chunk[0]
      invariant forall j :: leftContext <= j < leftContext + i ==> paddedFeatures[j] == chunk[j - leftContext]
      invariant forall j :: leftContext + offset <= j < minChunkSize ==> paddedFeatures[j] == chunk[offset - 1]
    {
      paddedFeatures[leftContext + i] := chunk[i];
    }
    PaddedByRows(chunk, minChunkSize, paddedFeatures[..]);
  }

  method RunOnChunk<Row>(subFeatures: seq<Row>, minChunkSize: int, zero: Row, net: seq<Row> -> real)
    returns (xvector: real)
    requires |subFeatures| > 0
    ensures xvector == net(Padded(subFeatures, minChunkSize))
  {
    if |subFeatures| < minChunkSize {
      var paddedFeatures := PadChunk(subFeatures, minChunkSize, zero);
      xvector := net(paddedFeatures[..]);
    } else {
      xvector := net(subFeatures);
    }
  }

  /** One turn of the loop up to the accumulation: cuts out chunk i and runs the network on it. */
  method RunChunk<Row>(features: seq<Row>, size: nat, i: nat, minChunkSize: int, zero: Row, net: seq<Row> -> real)
    returns (offset: nat, xvector: real)
    requires size > 0 && i < |Chunks(features, 0, size)|
    ensures offset == |Chunks(features, 0, size)[i]| > 0
    ensures xvector == net(Padded(Chunks(features, 0, size)[i], minChunkSize))
  {
    ChunkStarts(features, size, i);
    var start := i * size;
    offset := Min(size, |features| - start);
    assert features[start..start + offset] == Chunk(features, start, size);
    xvector := RunOnChunk(features[start..start + offset], minChunkSize, zero, net);
  }

  /** AddVec: adds the output once for every row of the chunk. */
  method AddVec(sum: real, offset: nat, xvector: real) returns (added: real)
    ensures added == sum + Scaled(offset, xvector)
  {
    ScaledIsProduct(offset, xvector);
    added := sum + offset as real * xvector;
  }

  /** Scale by one over the weight. */
  method Scale(sum: real, totWeight: nat) returns (scaled: real)
    requires totWeight > 0
    ensures Scaled(totWeight, scaled) == sum
  {
    scaled := sum / totWeight as real;
    ScaledIsProduct(totWeight, scaled);
  }

  /** The ceiling of the quotient. */
  method CountChunks<Row>(features: seq<Row>, size: nat) returns (numChunks: nat)
    requires |features| > 0 && size > 0
    ensures numChunks == |Chunks(features, 0, size)|
  {
    ChunkStarts(features, size, 0);
    numChunks := (|features| + size - 1) / size;
  }

  /** The loop of Compute: adds up the chunks' outputs and their lengths. */
  method SumChunks<Row>(features: seq<Row>, size: nat, minChunkSize: int, zero: Row, net: seq<Row> -> real)
    returns (sum: real, totWeight: nat)
    requires |features| >= 1 && size >= 1
    ensures var chunks := Chunks(features, 0, size);
      NonEmpty(chunks) && sum == WeightedSum(chunks, minChunkSize, net, |chunks|)
    ensures totWeight == |features|
  {
    ghost var chunks := Chunks(features, 0, size);
    AllRows(features, size);
    var numChunks := CountChunks(features, size);
    sum, totWeight := 0.0, 0;
    for chunkIdx := 0 to numChunks
      invariant totWeight == LengthUpTo(chunks, chunkIdx)
      invariant sum == WeightedSum(chunks, minChunkSize, net, chunkIdx)
    {
      var offset, xvector := RunChunk(features, size, chunkIdx, minChunkSize, zero, net);
      totWeight := totWeight + offset;
      sum := AddVec(sum, offset, xvector);
    }
  }

  /** XvectorNnet::Compute: the average over all rows of the chunks' outputs. */
  method Compute<Row(!new)>(features: seq<Row>, chunkSize: int, minChunkSize: int, zero: Row, net: seq<Row> -> real)
    returns (xvectorAvg: real)
    requires |features| >= 1 && (chunkSize == -1 || chunkSize >= 1)
    ensures var chunks := Chunks(features, 0, ChunkSizeFor(|features|, chunkSize));
      NonEmpty(chunks) && Scaled(|features|, xvectorAvg) == WeightedSum(chunks, minChunkSize, net, |chunks|)
    ensures IsAverage(features, chunkSize, minChunkSize, net, xvectorAvg)
    ensures (chunkSize == -1 || chunkSize >= |features|) && |features| >= minChunkSize ==> xvectorAvg == net(features)
  {
    var numRows := |features|;
    var thisChunkSize := chunkSize;
    if numRows < chunkSize || chunkSize == -1 {
      thisChunkSize := numRows;
    }
    var sum, totWeight := SumChunks(features, thisChunkSize, minChunkSize, zero, net);
    xvectorAvg := Scale(sum, totWeight);
    AverageIsOverSlices(features, chunkSize, minChunkSize, net, xvectorAvg);
    if (chunkSize == -1 || chunkSize >= |features|) && |features| >= minChunkSize {
      OneSlice(features, chunkSize, minChunkSize, net, xvectorAvg);
    }
  }
}
