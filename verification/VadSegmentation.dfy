/** Voice-activity segmentation: SegmentByVad of src/diarization.cc.

  The reference notions are Runs, the maximal voiced runs of a frame vector, and
  Widened, the runs after k whole rounds of one-frame widening and a partial
  round that has served the first `cut` segments.  The imperative methods follow
  the source's two marker vectors S and E and are proved against these.
 */
module VadSegmentation {
  import opened Utils

  datatype Segment = Segment(start: nat, end: nat)

  // ---------------------------------------------------------------- reference

  /** Adds frame n to the runs of the frames before it. */
  function Extend(before: seq<Segment>, isVoiced: bool, n: nat): seq<Segment>
  {
    if !isVoiced then before
    else if before != [] && before[|before| - 1].end == n then
      before[|before| - 1 := Segment(before[|before| - 1].start, n + 1)]
    else before + [Segment(n, n + 1)]
  }

  /** The maximal voiced runs among the first m frames, in order. */
  function RunsUpTo(voiced: seq<bool>, m: nat): seq<Segment>
    requires m <= |voiced|
  {
    if m == 0 then [] else Extend(RunsUpTo(voiced, m - 1), voiced[m - 1], m - 1)
  }

  function Runs(voiced: seq<bool>): seq<Segment> { RunsUpTo(voiced, |voiced|) }

  function VoicedUpTo(voiced: seq<bool>, m: nat): nat
    requires m <= |voiced|
  {
    if m == 0 then 0 else VoicedUpTo(voiced, m - 1) + if voiced[m - 1] then 1 else 0
  }

  function CountVoiced(voiced: seq<bool>): nat { VoicedUpTo(voiced, |voiced|) }

  /** A run starts at frame n of the vector. */
  predicate StartsAt(voiced: seq<bool>, n: int)
  {
    0 <= n < |voiced| && voiced[n] && (n == 0 || !voiced[n - 1])
  }

  /** A run of the first m frames ends just before frame n. */
  predicate EndsAt(voiced: seq<bool>, m: int, n: int)
    requires m <= |voiced|
  {
    0 < n <= m && voiced[n - 1] && (n == m || !voiced[n])
  }

  ghost predicate HasStart(w: seq<Segment>, n: int) { exists i :: 0 <= i < |w| && w[i].start == n }

  ghost predicate HasEnd(w: seq<Segment>, n: int) { exists i :: 0 <= i < |w| && w[i].end == n }

  ghost predicate Covers(w: seq<Segment>, n: int) { exists i :: 0 <= i < |w| && w[i].start <= n < w[i].end }

  /** Non-empty segments in order, possibly touching, all inside [0, bound]. */
  ghost predicate Ordered(w: seq<Segment>, bound: int)
  {
    && (forall i :: 0 <= i < |w| ==> w[i].start < w[i].end <= bound)
    && (forall i, j :: 0 <= i < j < |w| ==> w[i].end <= w[j].start)
  }

  function PrevEnd(r: seq<Segment>, i: int): nat
    requires 0 <= i <= |r|
  {
    if i == 0 then 0 else r[i - 1].end
  }

  function LastEnd(r: seq<Segment>): nat { PrevEnd(r, |r|) }

  /** Number of frames inside the segments. */
  function Total(w: seq<Segment>): int
  {
    if w == [] then 0 else Total(w[..|w| - 1]) + w[|w| - 1].end - w[|w| - 1].start
  }

  /** Segment i's start after `shift` one-frame steps to the left, stopped by its predecessor. */
  function Shifted(r: seq<Segment>, i: int, shift: nat): nat
    requires 0 <= i < |r|
  {
    Max(r[i].start - shift, PrevEnd(r, i))
  }

  /** The runs after `rounds` whole rounds of widening, the first `cut` runs having had one step more. */
  function Widened(r: seq<Segment>, rounds: nat, cut: nat): (w: seq<Segment>)
    ensures |w| == |r|
  {
    seq(|r|, i requires 0 <= i < |r| =>
      Segment(Shifted(r, i, if i < cut then rounds + 1 else rounds), r[i].end))
  }

  /** Frames the segments may cover for a requested proportion of silence. */
  function TargetFrames(numVoiced: nat, silenceProportion: real): int
    requires silenceProportion < 1.0
  {
    (numVoiced as real / (1.0 - silenceProportion)).Floor
  }

  /** What SegmentByVad promises: round-robin widening of the runs up to the frame budget. */
  ghost predicate IsSegmentation(voiced: seq<bool>, target: int, segments: seq<Segment>)
  {
    var runs := Runs(voiced);
    && (exists rounds: nat, cut: nat :: segments == Widened(runs, rounds, cut))
    && Total(segments) == Max(CountVoiced(voiced), Min(target, LastEnd(runs)))
  }

  // ------------------------------------------------------- facts about the runs

  /** Segment g is a maximal run of the first m frames. */
  ghost predicate IsRun(voiced: seq<bool>, m: nat, g: Segment)
    requires m <= |voiced|
  {
    && g.start < g.end <= m
    && StartsAt(voiced, g.start)
    && EndsAt(voiced, m, g.end)
    && (forall n :: g.start <= n < g.end ==> voiced[n])
  }

  /** Every listed run is a maximal run of the first m frames, and runs do not touch. */
  ghost predicate SoundRuns(voiced: seq<bool>, m: nat, r: seq<Segment>)
    requires m <= |voiced|
  {
    && (forall i :: 0 <= i < |r| ==> IsRun(voiced, m, r[i]))
    && (forall i, j :: 0 <= i < j < |r| ==> r[i].end < r[j].start)
    && (m > 0 && voiced[m - 1] ==> r != [] && r[|r| - 1].end == m)
  }

  /** One more frame leaves a run as it is, or extends the last one. */
  lemma RunOfMore(voiced: seq<bool>, m: nat, g: Segment)
    requires m < |voiced| && IsRun(voiced, m, g)
    ensures g.end < m || !voiced[m] ==> IsRun(voiced, m + 1, g)
    ensures g.end == m && voiced[m] ==> IsRun(voiced, m + 1, Segment(g.start, m + 1))
  {
  }

  lemma ExtendIsSound(voiced: seq<bool>, m: nat, before: seq<Segment>)
    requires m < |voiced| && SoundRuns(voiced, m, before)
    ensures SoundRuns(voiced, m + 1, Extend(before, voiced[m], m))
  {
    var r := Extend(before, voiced[m], m);
    forall i | 0 <= i < |r| ensures IsRun(voiced, m + 1, r[i]) {
      if i < |before| {
        RunOfMore(voiced, m, before[i]);
        assert i < |before| - 1 ==> before[i].end < before[|before| - 1].start;
      }
    }
    forall i, j | 0 <= i < j < |r| ensures r[i].end < r[j].start {
      assert IsRun(voiced, m, before[i]);
    }
  }

  lemma {:induction false} RunsAreSound(voiced: seq<bool>, m: nat)
    requires m <= |voiced|
    ensures SoundRuns(voiced, m, RunsUpTo(voiced, m))
  {
    if m > 0 {
      RunsAreSound(voiced, m - 1);
      ExtendIsSound(voiced, m - 1, RunsUpTo(voiced, m - 1));
    }
  }

  /** Complete: every voiced frame lies in a listed run. */
  lemma {:induction false} RunsCover(voiced: seq<bool>, m: nat, n: nat)
    requires n < m <= |voiced| && voiced[n]
    ensures Covers(RunsUpTo(voiced, m), n)
  {
    RunsAreSound(voiced, m);
    var r := RunsUpTo(voiced, m);
    if n == m - 1 {
      assert r[|r| - 1].start <= n < r[|r| - 1].end;
    } else {
      RunsCover(voiced, m - 1, n);
      var before := RunsUpTo(voiced, m - 1);
      var i :| 0 <= i < |before| && before[i].start <= n < before[i].end;
      assert r[i].start <= n < r[i].end;
    }
  }

  lemma StartMarkIsRunStart(voiced: seq<bool>, n: int)
    ensures StartsAt(voiced, n) <==> HasStart(Runs(voiced), n)
  {
    var r := Runs(voiced);
    RunsAreSound(voiced, |voiced|);
    if StartsAt(voiced, n) {
      RunsCover(voiced, |voiced|, n);
      var i :| 0 <= i < |r| && r[i].start <= n < r[i].end;
      assert IsRun(voiced, |voiced|, r[i]) && r[i].start == n;
    }
  }

  lemma EndMarkIsRunEnd(voiced: seq<bool>, n: int)
    ensures EndsAt(voiced, |voiced|, n) <==> HasEnd(Runs(voiced), n)
  {
    var r := Runs(voiced);
    RunsAreSound(voiced, |voiced|);
    if EndsAt(voiced, |voiced|, n) {
      RunsCover(voiced, |voiced|, n - 1);
      var i :| 0 <= i < |r| && r[i].start <= n - 1 < r[i].end;
      assert IsRun(voiced, |voiced|, r[i]) && r[i].end == n;
    }
  }

  /** The two marker conditions of the source identify exactly the ends of the runs. */
  lemma MarkersAreRunEnds(voiced: seq<bool>, n: int)
    ensures StartsAt(voiced, n) <==> HasStart(Runs(voiced), n)
    ensures EndsAt(voiced, |voiced|, n) <==> HasEnd(Runs(voiced), n)
  {
    StartMarkIsRunStart(voiced, n);
    EndMarkIsRunEnd(voiced, n);
  }

  lemma {:induction false} RunsTotal(voiced: seq<bool>, m: nat)
    requires m <= |voiced|
    ensures Total(RunsUpTo(voiced, m)) == VoicedUpTo(voiced, m)
  {
    if m > 0 {
      RunsTotal(voiced, m - 1);
      var before, r := RunsUpTo(voiced, m - 1), RunsUpTo(voiced, m);
      if r != before {
        assert r[..|r| - 1] == if |r| == |before| then before[..|r| - 1] else before;
      }
    }
  }

  // --------------------------------------------------------- facts about widening

  lemma RunsAreOrdered(voiced: seq<bool>)
    ensures Ordered(Runs(voiced), |voiced|)
  {
    RunsAreSound(voiced, |voiced|);
    var r := Runs(voiced);
    forall i | 0 <= i < |r| ensures r[i].start < r[i].end <= |voiced| {
      assert IsRun(voiced, |voiced|, r[i]);
    }
  }

  lemma WidenedIsOrdered(r: seq<Segment>, bound: int, rounds: nat, cut: nat)
    requires Ordered(r, bound)
    ensures Ordered(Widened(r, rounds, cut), bound)
  {
    var w := Widened(r, rounds, cut);
    forall i, j | 0 <= i < j < |r| ensures w[i].end <= w[j].start {
      assert i < j - 1 ==> r[i].end <= r[j - 1].start;
    }
  }

  /** Total moves with the starts: pointwise earlier starts cover at least as much. */
  lemma {:induction false} TotalMonotone(w: seq<Segment>, v: seq<Segment>)
    requires |w| == |v|
    requires forall i :: 0 <= i < |w| ==> v[i].end == w[i].end && v[i].start <= w[i].start
    ensures Total(w) <= Total(v)
    ensures Total(w) == Total(v) ==> w == v
  {
    if w != [] {
      var n := |w| - 1;
      TotalMonotone(w[..n], v[..n]);
      if Total(w) == Total(v) {
        assert w == w[..n] + [w[n]] && v == v[..n] + [v[n]];
      }
    }
  }

  lemma {:induction false} TotalOfUpdate(w: seq<Segment>, i: nat, g: Segment)
    requires i < |w|
    ensures Total(w[i := g]) == Total(w) - (w[i].end - w[i].start) + (g.end - g.start)
  {
    var n := |w| - 1;
    var v := w[i := g];
    if i == n {
      assert v[..n] == w[..n];
    } else {
      assert v[..n] == w[..n][i := g];
      TotalOfUpdate(w[..n], i, g);
    }
  }

  /** Each run stretched back to its predecessor's end covers everything up to the last end. */
  lemma {:induction false} TotalWhenTouching(w: seq<Segment>)
    requires forall i :: 0 <= i < |w| ==> w[i].start == PrevEnd(w, i)
    ensures Total(w) == LastEnd(w)
  {
    if w != [] {
      var n := |w| - 1;
      forall i | 0 <= i < n ensures w[..n][i].start == PrevEnd(w[..n], i) {
        assert w[i].start == PrevEnd(w, i);
      }
      TotalWhenTouching(w[..n]);
      assert w[n].start == PrevEnd(w, n);
    }
  }

  /** Every run stretched back to the end of the one before it. */
  function Touching(r: seq<Segment>): (w: seq<Segment>)
    ensures |w| == |r|
  {
    seq(|r|, i requires 0 <= i < |r| => Segment(PrevEnd(r, i), r[i].end))
  }

  lemma TouchingTotal(r: seq<Segment>)
    ensures Total(Touching(r)) == LastEnd(r)
  {
    var w := Touching(r);
    forall i | 0 <= i < |w| ensures w[i].start == PrevEnd(w, i) {
      assert i > 0 ==> w[i - 1].end == r[i - 1].end;
    }
    TotalWhenTouching(w);
  }

  /** A widened segment reaches back at most to the end of the run before it. */
  lemma WidenedStart(r: seq<Segment>, bound: int, rounds: nat, cut: nat, i: nat)
    requires Ordered(r, bound) && i < |r|
    ensures PrevEnd(r, i) <= Widened(r, rounds, cut)[i].start <= r[i].start
  {
    assert i > 0 ==> r[i - 1].end <= r[i].start;
  }

  /** Widening only adds frames, and never more than there are before the last run's end. */
  lemma WidenedTotalBound(r: seq<Segment>, bound: int, rounds: nat, cut: nat)
    requires Ordered(r, bound)
    ensures Total(r) <= Total(Widened(r, rounds, cut)) <= LastEnd(r)
  {
    var w, t := Widened(r, rounds, cut), Touching(r);
    forall i | 0 <= i < |r| ensures t[i].start <= w[i].start <= r[i].start && t[i].end == w[i].end == r[i].end {
      WidenedStart(r, bound, rounds, cut, i);
    }
    TotalMonotone(r, w);
    TotalMonotone(w, t);
    TouchingTotal(r);
  }

  /** The segments with segment i one frame longer on the left, if there is room. */
  function Stretched(w: seq<Segment>, i: nat): (v: seq<Segment>)
    requires i < |w|
    ensures |v| == |w|
  {
    if w[i].start <= PrevEnd(w, i) then w else w[i := Segment(w[i].start - 1, w[i].end)]
  }

  lemma StretchedTotal(w: seq<Segment>, i: nat)
    requires i < |w|
    ensures Total(Stretched(w, i)) == Total(w) + if w[i].start <= PrevEnd(w, i) then 0 else 1
  {
    if w[i].start > PrevEnd(w, i) { TotalOfUpdate(w, i, Segment(w[i].start - 1, w[i].end)); }
  }

  /** Serving segment i in a round turns `cut == i` into `cut == i + 1`. */
  lemma WidenStep(r: seq<Segment>, rounds: nat, i: nat)
    requires i < |r|
    ensures Widened(r, rounds, i + 1) == Stretched(Widened(r, rounds, i), i)
  {
    var w, v := Widened(r, rounds, i), Widened(r, rounds, i + 1);
    assert PrevEnd(w, i) == PrevEnd(r, i);
    assert forall j :: 0 <= j < |r| && j != i ==> v[j] == w[j];
    assert v[i] == Stretched(w, i)[i];
  }

  lemma NoWidening(r: seq<Segment>, bound: int)
    requires Ordered(r, bound)
    ensures Widened(r, 0, 0) == r
  {
    forall i | 0 <= i < |r| ensures PrevEnd(r, i) <= r[i].start {
      assert i > 0 ==> r[i - 1].end <= r[i].start;
    }
  }

  lemma WholeRound(r: seq<Segment>, rounds: nat)
    ensures Widened(r, rounds, |r|) == Widened(r, rounds + 1, 0)
  {
  }

  /** A round that moves nothing has every segment touching its predecessor. */
  lemma IdleRound(r: seq<Segment>, rounds: nat)
    requires Widened(r, rounds, |r|) == Widened(r, rounds, 0)
    ensures Total(Widened(r, rounds, 0)) == LastEnd(r)
  {
    var w, v := Widened(r, rounds, 0), Widened(r, rounds, |r|);
    forall i | 0 <= i < |r| ensures w[i] == Touching(r)[i] {
      assert v[i].start == w[i].start;
    }
    assert w == Touching(r);
    TouchingTotal(r);
  }

  // --------------------------------------------------------------- the source's code

  /** The marker vectors hold exactly the starts and ends of w. */
  ghost predicate Marks(S: seq<bool>, E: seq<bool>, w: seq<Segment>)
  {
    && |E| == |S| + 1
    && (forall n :: 0 <= n < |S| ==> (S[n] <==> HasStart(w, n)))
    && (forall n :: 0 <= n < |E| ==> (E[n] <==> HasEnd(w, n)))
  }

  /** First loop: mark run starts in S and run ends in E. */
  method MarkRuns(voiced: seq<bool>) returns (S: array<bool>, E: array<bool>)
    requires |voiced| >= 1
    ensures fresh(S) && fresh(E) && S != E
    ensures Marks(S[..], E[..], Runs(voiced)) && S.Length == |voiced|
  {
    var N := |voiced|;
    S := new bool[N](_ => false);
    E := new bool[N + 1](_ => false);
    for n := 0 to N
      invariant forall j :: 0 <= j < n ==> (S[j] <==> StartsAt(voiced, j))
      invariant forall j :: n <= j < N ==> !S[j]
      invariant forall j :: 0 <= j < n ==> (E[j] <==> EndsAt(voiced, N, j))
      invariant forall j :: n <= j <= N ==> !E[j]
    {
      if !voiced[n] {
        if n > 0 && voiced[n - 1] {
          E[n] := true;
        }
      } else {
        if n == 0 || !voiced[n - 1] {
          S[n] := true;
        }
      }
    }
    if voiced[N - 1] {
      E[N] := true;
    }
    forall n | 0 <= n < |S[..]| ensures S[..][n] <==> HasStart(Runs(voiced), n) {
      MarkersAreRunEnds(voiced, n);
    }
    forall n | 0 <= n < |E[..]| ensures E[..][n] <==> HasEnd(Runs(voiced), n) {
      MarkersAreRunEnds(voiced, n);
    }
  }

  function Starts(w: seq<Segment>): (s: seq<nat>)
    ensures |s| == |w|
  {
    seq(|w|, i requires 0 <= i < |w| => w[i].start)
  }

  /** Frame n adds its number to the run starts exactly when a run starts there. */
  lemma StartsGrow(voiced: seq<bool>, n: nat)
    requires n < |voiced|
    ensures Starts(RunsUpTo(voiced, n + 1))
         == Starts(RunsUpTo(voiced, n)) + if StartsAt(voiced, n) then [n] else []
  {
    RunsAreSound(voiced, n);
    var before, after := RunsUpTo(voiced, n), RunsUpTo(voiced, n + 1);
    if before != [] {
      assert IsRun(voiced, n, before[|before| - 1]);
    }
    assert Starts(after)[..|before|] == Starts(before);
  }

  /** Second loop: list the run starts and count the frames inside runs. */
  method CollectActive(voiced: seq<bool>, S: array<bool>, E: array<bool>)
    returns (activeFrames: seq<nat>, numNonsilFrames: nat)
    requires S.Length == |voiced| && Marks(S[..], E[..], Runs(voiced))
    ensures activeFrames == Starts(Runs(voiced))
    ensures numNonsilFrames == CountVoiced(voiced)
  {
    var N := |voiced|;
    numNonsilFrames := 0;
    var inSegment := false;
    activeFrames := [];
    for n := 0 to N + 1
      invariant activeFrames == Starts(RunsUpTo(voiced, Min(n, N)))
      invariant numNonsilFrames == VoicedUpTo(voiced, Min(n, N))
      invariant n <= N ==> (inSegment <==> n > 0 && voiced[n - 1])
    {
      assert n < N ==> S[..][n] == S[n];
      assert E[..][n] == E[n];
      MarkersAreRunEnds(voiced, n);
      if n < N { StartsGrow(voiced, n); }
      if n < N && S[n] {
        inSegment := true;
        activeFrames := activeFrames + [n];
      }
      if E[n] {
        inSegment := false;
      }
      if n < N {
        if inSegment {
          numNonsilFrames := numNonsilFrames + 1;
        }
      }
    }
  }

  /** Frame n carries both a start and an end mark only where two segments touch. */
  lemma EndMarkAtStart(w: seq<Segment>, bound: int, i: nat)
    requires Ordered(w, bound) && i < |w|
    ensures HasEnd(w, w[i].start) <==> i > 0 && w[i - 1].end == w[i].start
  {
    forall j | 0 <= j < i - 1 ensures w[j].end < w[i].start {
      assert w[j].end <= w[i - 1].start;
    }
    forall j | i <= j < |w| ensures w[i].start < w[j].end {
      assert i < j ==> w[i].end <= w[j].start;
    }
  }

  /** With segment i's start one frame back there is a start there and none where it was. */
  lemma StartMoves(w: seq<Segment>, bound: int, i: nat, k: nat)
    requires Ordered(w, bound) && i < |w| && PrevEnd(w, i) < w[i].start
    ensures HasStart(w[i := Segment(w[i].start - 1, w[i].end)], k)
      <==> k == w[i].start - 1 || (k != w[i].start && HasStart(w, k))
  {
    var n := w[i].start;
    var v := w[i := Segment(n - 1, w[i].end)];
    assert v[i].start == n - 1;
    if HasStart(w, k) && k != n {
      var j :| 0 <= j < |w| && w[j].start == k;
      assert v[j].start == k;
    }
    if HasStart(v, k) && k != n - 1 {
      var j :| 0 <= j < |v| && v[j].start == k;
      assert w[j].start == k;
      assert j < i ==> w[j].end <= w[i].start;
      assert i < j ==> w[i].end <= w[j].start;
    }
  }

  lemma EndStays(w: seq<Segment>, i: nat, start: nat, k: nat)
    requires i < |w|
    ensures HasEnd(w[i := Segment(start, w[i].end)], k) <==> HasEnd(w, k)
  {
    var v := w[i := Segment(start, w[i].end)];
    assert forall j :: 0 <= j < |w| ==> v[j].end == w[j].end;
  }

  /** Moving segment i's start one frame back moves exactly one start mark. */
  lemma MoveStartMark(S: seq<bool>, E: seq<bool>, w: seq<Segment>, i: nat)
    requires Ordered(w, |S|) && Marks(S, E, w)
    requires i < |w| && PrevEnd(w, i) < w[i].start
    ensures Marks(S[w[i].start := false][w[i].start - 1 := true], E,
                  w[i := Segment(w[i].start - 1, w[i].end)])
  {
    var n := w[i].start;
    var S' := S[n := false][n - 1 := true];
    forall k | 0 <= k < |S| ensures S'[k] <==> HasStart(w[i := Segment(n - 1, w[i].end)], k) {
      StartMoves(w, |S|, i, k);
    }
    forall k | 0 <= k < |E| ensures E[k] <==> HasEnd(w[i := Segment(n - 1, w[i].end)], k) {
      EndStays(w, i, n - 1, k);
    }
  }

  lemma StretchedIsOrdered(w: seq<Segment>, bound: int, i: nat)
    requires Ordered(w, bound) && i < |w|
    ensures Ordered(Stretched(w, i), bound)
  {
    var v := Stretched(w, i);
    forall j, k | 0 <= j < k < |v| ensures v[j].end <= v[k].start {
      assert k == i && j < i - 1 ==> w[j].end <= w[i - 1].start < w[i - 1].end;
    }
  }

  lemma StartsOfUpdate(w: seq<Segment>, i: nat, g: Segment)
    requires i < |w|
    ensures Starts(w[i := g]) == Starts(w)[i := g.start]
  {
  }

  /** One visit of the third loop to listed segment i.

      Every listed frame carries a start mark throughout, so the source's first branch,
      which would move an end mark (lines 172-179), is never taken. */
  method WidenOne(ghost w: seq<Segment>, S: array<bool>, E: array<bool>, listed: seq<nat>, i: nat)
    returns (ghost v: seq<Segment>, activeFrames: seq<nat>, moved: bool)
    requires S != E && Ordered(w, S.Length) && i < |w|
    requires listed == Starts(w) && Marks(S[..], E[..], w)
    modifies S
    ensures v == Stretched(w, i)
    ensures activeFrames == Starts(v) && Marks(S[..], E[..], v)
    ensures Total(v) == Total(w) + if moved then 1 else 0
    ensures !moved ==> v == w
  {
    var N := S.Length;
    v, activeFrames, moved := Stretched(w, i), listed, false;
    var n := activeFrames[i];
    ghost var starts, ends := S[..], E[..];
    StretchedTotal(w, i);
    EndMarkAtStart(w, N, i);
    assert HasStart(w, n) && n < w[i].end <= N;
    assert starts[n] == S[n] && ends[n] == E[n];
    if E[n] && n < N && !S[n] {
      assert false;
    }
    if n < N && S[n] && n > 0 && !E[n] {
      MoveStartMark(starts, ends, w, i);
      StartsOfUpdate(w, i, Segment(n - 1, w[i].end));
      S[n] := false;
      S[n - 1] := true;
      assert S[..] == starts[n := false][n - 1 := true];
      activeFrames := activeFrames[i := n - 1];
      moved := true;
    }
  }

  /** The segments after a round has served the first n. */
  function RoundUpTo(w: seq<Segment>, n: nat): (v: seq<Segment>)
    requires n <= |w|
    ensures |v| == |w|
  {
    if n == 0 then w else Stretched(RoundUpTo(w, n - 1), n - 1)
  }

  lemma {:induction false} RoundIsOrdered(w: seq<Segment>, bound: int, n: nat)
    requires Ordered(w, bound) && n <= |w|
    ensures Ordered(RoundUpTo(w, n), bound)
  {
    if n > 0 {
      RoundIsOrdered(w, bound, n - 1);
      StretchedIsOrdered(RoundUpTo(w, n - 1), bound, n - 1);
    }
  }

  lemma {:induction false} RoundIsWidened(runs: seq<Segment>, bound: int, rounds: nat, n: nat)
    requires Ordered(runs, bound) && n <= |runs|
    ensures RoundUpTo(Widened(runs, rounds, 0), n) == Widened(runs, rounds, n)
  {
    if n > 0 {
      RoundIsWidened(runs, bound, rounds, n - 1);
      WidenStep(runs, rounds, n - 1);
    }
  }

  /** One round of the third loop, cut short when the target is met. */
  method WidenRound(ghost w0: seq<Segment>, S: array<bool>, E: array<bool>, listed: seq<nat>,
                    numFrames: int, target: int)
    returns (ghost cut: nat, ghost w: seq<Segment>, activeFrames: seq<nat>, numSegmentFrames: int, changed: bool)
    requires S != E && Ordered(w0, S.Length)
    requires listed == Starts(w0) && Marks(S[..], E[..], w0) && numFrames == Total(w0) < target
    modifies S
    ensures cut <= |w0| && w == RoundUpTo(w0, cut)
    ensures activeFrames == Starts(w) && Marks(S[..], E[..], w) && numSegmentFrames == Total(w)
    ensures numFrames <= numSegmentFrames <= target
    ensures numSegmentFrames < target ==> cut == |w0|
    ensures changed <==> numFrames < numSegmentFrames
    ensures !changed ==> w == w0
  {
    activeFrames, numSegmentFrames, changed := listed, numFrames, false;
    w, cut := w0, 0;
    var i := 0;
    while i < |activeFrames|
      invariant 0 <= i == cut <= |activeFrames| == |w| == |w0|
      invariant w == RoundUpTo(w0, i)
      invariant activeFrames == Starts(w) && Marks(S[..], E[..], w)
      invariant numFrames <= numSegmentFrames == Total(w) < target
      invariant changed <==> numFrames < numSegmentFrames
      invariant !changed ==> w == w0
    {
      var moved;
      RoundIsOrdered(w0, S.Length, i);
      w, activeFrames, moved := WidenOne(w, S, E, activeFrames, i);
      assert w == RoundUpTo(w0, i + 1);
      if moved {
        numSegmentFrames := numSegmentFrames + 1;
        changed := true;
      }
      cut := i + 1;
      if numSegmentFrames == target {
        break;
      }
      i := i + 1;
    }
  }

  /** Third loop: widen the segments round by round until the target is met or nothing moves. */
  method WidenSegments(ghost runs: seq<Segment>, S: array<bool>, E: array<bool>,
                       initial: seq<nat>, numNonsilFrames: int, target: int)
    returns (ghost rounds: nat, ghost cut: nat, numSegmentFrames: int)
    requires S != E && Ordered(runs, S.Length) && Marks(S[..], E[..], runs)
    requires initial == Starts(runs) && numNonsilFrames == Total(runs)
    modifies S
    ensures Marks(S[..], E[..], Widened(runs, rounds, cut))
    ensures numSegmentFrames == Total(Widened(runs, rounds, cut))
    ensures numSegmentFrames == Max(numNonsilFrames, Min(target, LastEnd(runs)))
  {
    var activeFrames := initial;
    numSegmentFrames := numNonsilFrames;
    rounds, cut := 0, 0;
    NoWidening(runs, S.Length);
    while numSegmentFrames < target
      invariant activeFrames == Starts(Widened(runs, rounds, cut))
      invariant Marks(S[..], E[..], Widened(runs, rounds, cut))
      invariant numNonsilFrames <= numSegmentFrames == Total(Widened(runs, rounds, cut))
      invariant numSegmentFrames <= Max(numNonsilFrames, target)
      invariant numSegmentFrames < target ==> cut == 0
      decreases target - numSegmentFrames
    {
      var changed;
      ghost var w;
      WidenedIsOrdered(runs, S.Length, rounds, 0);
      cut, w, activeFrames, numSegmentFrames, changed :=
        WidenRound(Widened(runs, rounds, 0), S, E, activeFrames, numSegmentFrames, target);
      RoundIsWidened(runs, S.Length, rounds, cut);
      if !changed {
        IdleRound(runs, rounds);
        break;
      }
      if numSegmentFrames < target {
        WholeRound(runs, rounds);
        rounds, cut := rounds + 1, 0;
      }
    }
    WidenedTotalBound(runs, S.Length, rounds, cut);
  }

  /** Within segment m, the first end mark after its start is its own end. */
  lemma EndMarkInside(w: seq<Segment>, bound: int, m: nat, p: int)
    requires Ordered(w, bound) && m < |w| && w[m].start < p <= w[m].end
    ensures HasEnd(w, p) <==> p == w[m].end
    ensures p < w[m].end ==> !HasStart(w, p)
  {
    forall j | 0 <= j < m ensures w[j].start < p && w[j].end < p {
      assert w[j].start < w[j].end <= w[m].start;
    }
    forall j | m < j < |w| ensures w[m].end <= w[j].start < w[j].end {
    }
  }

  /** A frame between two segments carries neither mark. */
  lemma NoMarkBetween(w: seq<Segment>, bound: int, m: nat, n: int)
    requires Ordered(w, bound) && m <= |w|
    requires m > 0 ==> w[m - 1].end <= n
    requires m < |w| ==> n < w[m].start
    ensures !HasStart(w, n)
    ensures HasEnd(w, n) ==> m > 0 && w[m - 1].end == n
  {
    forall j | 0 <= j < m ensures w[j].start < n && (w[j].end < n || j == m - 1) {
      if j < m - 1 { assert w[j].end <= w[m - 1].start < w[m - 1].end; }
    }
    forall j | m <= j < |w| ensures n < w[j].start < w[j].end {
      if m < j { assert w[m].end <= w[j].start; }
    }
  }

  /** Past the first m segments and not past the next one's start, a start mark is that start, and an
      end mark without one is the end of segment m - 1. */
  lemma SweepMark(w: seq<Segment>, bound: int, m: nat, n: nat)
    requires Ordered(w, bound) && m <= |w|
    requires (m > 0 ==> w[m - 1].end <= n) && (m < |w| ==> n <= w[m].start)
    ensures HasStart(w, n) <==> m < |w| && n == w[m].start
    ensures HasEnd(w, n) && !HasStart(w, n) ==> m > 0 && n == w[m - 1].end
  {
    if m < |w| && n == w[m].start {
      assert HasStart(w, n);
    } else {
      NoMarkBetween(w, bound, m, n);
    }
  }

  /** The fourth loop's inner loop: from a segment's start to the next end mark. */
  method FindEnd(ghost w: seq<Segment>, S: array<bool>, E: array<bool>, ghost m: nat, n: nat) returns (p: nat)
    requires S != E && Ordered(w, S.Length) && Marks(S[..], E[..], w) && m < |w| && n == w[m].start
    ensures p == w[m].end
  {
    var N := S.Length;
    p := n + 1;
    while p < N && !E[p]
      invariant n < p <= w[m].end
    {
      assert S[..][p] == S[p] && E[..][p] == E[p];
      EndMarkInside(w, N, m, p);
      assert !S[p];
      p := p + 1;
    }
    assert E[..][p] == E[p];
    EndMarkInside(w, N, m, p);
    assert E[p];
  }

  /** The sweep has emitted the first m segments and stands before the next one's start. */
  ghost predicate Swept(w: seq<Segment>, bound: int, m: nat, n: nat)
  {
    && m <= |w|
    && (m > 0 ==> w[m - 1].end <= n)
    && (m < |w| ==> n <= w[m].start < bound)
  }

  /** Past a segment the sweep stands at its end. */
  lemma SweptOn(w: seq<Segment>, bound: int, m: nat)
    requires Ordered(w, bound) && m < |w|
    ensures Swept(w, bound, m + 1, w[m].end)
  {
  }

  /** One turn of the fourth loop, with the source's first two assertions: at a start mark the segment
      that starts there and the end it was swept to, else nothing. */
  method EmitNext(ghost w: seq<Segment>, S: array<bool>, E: array<bool>, ghost m: nat, n: nat)
    returns (segment: Option<Segment>)
    requires S != E && Ordered(w, S.Length) && Marks(S[..], E[..], w)
    requires n < S.Length && Swept(w, S.Length, m, n) && (m > 0 && n == w[m - 1].end ==> S[n])
    ensures segment == if m < |w| && n == w[m].start then Some(w[m]) else None
  {
    assert S[..][n] == S[n] && E[..][n] == E[n];
    SweepMark(w, S.Length, m, n);
    assert !(E[n] && !S[n]);
    if !S[n] {
      return None;
    }
    var p := FindEnd(w, S, E, m, n);
    return Some(Segment(n, p));
  }

  /** Fourth loop: sweep the marker vectors and emit the segments; the source's three assertions appear
      in the methods above. */
  method EmitSegments(ghost w: seq<Segment>, S: array<bool>, E: array<bool>)
    returns (voicedSegments: seq<Segment>)
    requires S != E && Ordered(w, S.Length) && Marks(S[..], E[..], w)
    ensures voicedSegments == w
  {
    var N := S.Length;
    voicedSegments := [];
    var n := 0;
    while n < N
      invariant 0 <= n && Swept(w, N, |voicedSegments|, n)
      invariant voicedSegments == w[..|voicedSegments|]
      invariant var m := |voicedSegments|; m > 0 && n == w[m - 1].end && n < N ==> S[n]
      decreases N - n
    {
      ghost var m := |voicedSegments|;
      var segment := EmitNext(w, S, E, m, n);
      if segment.Some? {
        var p := segment.value.end;
        voicedSegments := voicedSegments + [segment.value];
        assert w[..m + 1] == w[..m] + [w[m]];
        SweptOn(w, N, m);
        SweepMark(w, N, m + 1, p);
        assert p < N ==> S[..][p] == S[p];
        if p < N && S[p] {
          n := p - 1;
        } else {
          n := p;
        }
      }
      n := n + 1;
    }
  }

  /** SegmentByVad: the maximal voiced runs, widened to the left round by round under the frame
      budget that the requested proportion of silence gives. */
  method SegmentByVad(voiced: seq<bool>, silenceProportion: real) returns (segments: seq<Segment>)
    requires |voiced| >= 1 && silenceProportion < 1.0
    ensures IsSegmentation(voiced, TargetFrames(CountVoiced(voiced), silenceProportion), segments)
  {
    ghost var runs := Runs(voiced);
    RunsAreOrdered(voiced);
    RunsTotal(voiced, |voiced|);
    var S, E := MarkRuns(voiced);
    var activeFrames, numNonsilFrames := CollectActive(voiced, S, E);
    var targetSegmentFrames := (numNonsilFrames as real / (1.0 - silenceProportion)).Floor;
    ghost var rounds, cut;
    var numSegmentFrames;
    rounds, cut, numSegmentFrames :=
      WidenSegments(runs, S, E, activeFrames, numNonsilFrames, targetSegmentFrames);
    WidenedIsOrdered(runs, |voiced|, rounds, cut);
    segments := EmitSegments(Widened(runs, rounds, cut), S, E);
  }

  // ------------------------------------------------------------ what callers rely on

  lemma VoicedStaysCovered(voiced: seq<bool>, segments: seq<Segment>, n: nat)
    requires n < |voiced| && voiced[n] && |segments| == |Runs(voiced)|
    requires forall i :: 0 <= i < |segments| ==>
      segments[i].end == Runs(voiced)[i].end && segments[i].start <= Runs(voiced)[i].start
    ensures Covers(segments, n)
  {
    var runs := Runs(voiced);
    RunsCover(voiced, |voiced|, n);
    var i :| 0 <= i < |runs| && runs[i].start <= n < runs[i].end;
    assert segments[i].start <= n < segments[i].end;
  }

  /** One segment per maximal voiced run, in order and disjoint; each ends where its run ends and
      starts no later than its run, so only silence is added and no voiced frame is lost. */
  lemma SegmentationProperties(voiced: seq<bool>, target: int, segments: seq<Segment>)
    requires IsSegmentation(voiced, target, segments)
    ensures var runs := Runs(voiced);
      && |segments| == |runs|
      && (forall i :: 0 <= i < |runs| ==>
            segments[i].end == runs[i].end && PrevEnd(runs, i) <= segments[i].start <= runs[i].start)
    ensures Ordered(segments, |voiced|)
    ensures forall n :: 0 <= n < |voiced| && voiced[n] ==> Covers(segments, n)
  {
    var runs := Runs(voiced);
    var rounds: nat, cut: nat :| segments == Widened(runs, rounds, cut);
    RunsAreOrdered(voiced);
    WidenedIsOrdered(runs, |voiced|, rounds, cut);
    forall i | 0 <= i < |runs|
      ensures segments[i].end == runs[i].end && PrevEnd(runs, i) <= segments[i].start <= runs[i].start
    {
      assert i > 0 ==> runs[i - 1].end <= runs[i].start;
    }
    forall n | 0 <= n < |voiced| && voiced[n] ensures Covers(segments, n) {
      VoicedStaysCovered(voiced, segments, n);
    }
  }

  /** The widening is fair: as long as a segment has room, it is widened as often as any later one, and
      at most one frame less than any earlier one. */
  lemma WideningIsFair(voiced: seq<bool>, target: int, segments: seq<Segment>, i: nat, j: nat)
    requires IsSegmentation(voiced, target, segments) && i < j < |segments|
    ensures |segments| == |Runs(voiced)|
    ensures var runs := Runs(voiced);
      var early, late := runs[i].start - segments[i].start, runs[j].start - segments[j].start;
      && (segments[i].start > PrevEnd(runs, i) ==> late <= early)
      && (segments[j].start > PrevEnd(runs, j) ==> early <= late + 1)
  {
    var runs := Runs(voiced);
    var rounds: nat, cut: nat :| segments == Widened(runs, rounds, cut);
    RunsAreOrdered(voiced);
    WidenedStart(runs, |voiced|, rounds, cut, i);
    WidenedStart(runs, |voiced|, rounds, cut, j);
  }

  /** Going on never gives frames back, so equal totals mean equal segments. */
  lemma FurtherIsWider(r: seq<Segment>, k: nat, c: nat, l: nat, d: nat)
    requires k < l || (k == l && c <= d)
    ensures Total(Widened(r, k, c)) == Total(Widened(r, l, d)) ==> Widened(r, k, c) == Widened(r, l, d)
  {
    var a, b := Widened(r, k, c), Widened(r, l, d);
    forall i | 0 <= i < |r| ensures b[i].start <= a[i].start && a[i].end == b[i].end {
    }
    TotalMonotone(a, b);
  }

  /** The promise determines the segments: two lists that meet it are equal. */
  lemma SegmentationUnique(voiced: seq<bool>, target: int, a: seq<Segment>, b: seq<Segment>)
    requires IsSegmentation(voiced, target, a) && IsSegmentation(voiced, target, b)
    ensures a == b
  {
    var runs := Runs(voiced);
    var k: nat, c: nat :| a == Widened(runs, k, c);
    var l: nat, d: nat :| b == Widened(runs, l, d);
    if k < l || (k == l && c <= d) {
      FurtherIsWider(runs, k, c, l, d);
    } else {
      FurtherIsWider(runs, l, d, k, c);
    }
  }

  /** Of `total` frames kept, at most the given proportion is not voiced. */
  predicate WithinBudget(total: int, numVoiced: int, silenceProportion: real)
  {
    (total - numVoiced) as real <= silenceProportion * total as real
  }

  lemma TotalWithinTarget(voiced: seq<bool>, target: int, segments: seq<Segment>)
    requires CountVoiced(voiced) <= target && IsSegmentation(voiced, target, segments)
    ensures Total(segments) <= target
    ensures Total(segments) == target || Total(segments) == LastEnd(Runs(voiced))
  {
    RunsAreOrdered(voiced);
    RunsTotal(voiced, |voiced|);
    WidenedTotalBound(Runs(voiced), |voiced|, 0, 0);
  }

  /** The same budget by the frames of speech. */
  lemma BudgetBySpeech(total: int, num: int, silenceProportion: real, kept: real)
    requires kept == total as real
    ensures WithinBudget(total, num, silenceProportion)
      <==> kept * (1.0 - silenceProportion) <= num as real
  {
    assert kept * (1.0 - silenceProportion) == kept - silenceProportion * kept;
  }

  /** One frame beyond the target is over the budget. */
  lemma BeyondTarget(target: int, num: int, silenceProportion: real)
    requires num as real < (target as real + 1.0) * (1.0 - silenceProportion)
    ensures !WithinBudget(target + 1, num, silenceProportion)
  {
    BudgetBySpeech(target + 1, num, silenceProportion, target as real + 1.0);
  }

  lemma Scale(x: real, y: real, f: real)
    requires x <= y && 0.0 <= f
    ensures x * f <= y * f
    ensures 0.0 < f && x < y ==> x * f < y * f
  {
  }

  /** Up to the target the frames are within the budget. */
  lemma WithinTarget(total: int, target: int, num: int, silenceProportion: real)
    requires silenceProportion < 1.0 && total <= target
    requires target as real * (1.0 - silenceProportion) <= num as real
    ensures WithinBudget(total, num, silenceProportion)
  {
    Scale(total as real, target as real, 1.0 - silenceProportion);
    BudgetBySpeech(total, num, silenceProportion, total as real);
  }

  lemma QuotientGrows(quotient: real, num: real, speech: real)
    requires 0.0 < speech <= 1.0 && 0.0 <= num
    requires quotient * speech == num
    ensures num <= quotient
  {
    if quotient < 0.0 {
      Scale(quotient, 0.0, speech);
    } else {
      Scale(speech, 1.0, quotient);
      assert speech * quotient == num;
    }
  }

  lemma FloorBounds(quotient: real, target: real, next: real, num: real, speech: real)
    requires 0.0 < speech <= 1.0 && 0.0 <= num
    requires quotient * speech == num
    requires target <= quotient < next
    ensures num < next
    ensures target * speech <= num < next * speech
  {
    Scale(target, quotient, speech);
    Scale(quotient, next, speech);
    QuotientGrows(quotient, num, speech);
  }

  lemma QuotientTimes(n: real, d: real)
    requires 0.0 < d
    ensures n / d * d == n
  {
  }

  lemma TargetBounds(num: nat, silenceProportion: real)
    requires 0.0 <= silenceProportion < 1.0
    ensures var target, speech := TargetFrames(num, silenceProportion), 1.0 - silenceProportion;
      num <= target && target as real * speech <= num as real < (target as real + 1.0) * speech
  {
    var speech := 1.0 - silenceProportion;
    var quotient := num as real / speech;
    QuotientTimes(num as real, speech);
    var target := TargetFrames(num, silenceProportion);
    FloorBounds(quotient, target as real, target as real + 1.0, num as real, speech);
  }

  lemma BudgetArithmetic(total: int, num: nat, silenceProportion: real)
    requires 0.0 <= silenceProportion < 1.0
    requires total <= TargetFrames(num, silenceProportion)
    ensures WithinBudget(total, num, silenceProportion)
    ensures total == TargetFrames(num, silenceProportion) ==>
      !WithinBudget(total + 1, num, silenceProportion)
  {
    var target := TargetFrames(num, silenceProportion);
    TargetBounds(num, silenceProportion);
    WithinTarget(total, target, num, silenceProportion);
    BeyondTarget(target, num, silenceProportion);
  }

  /** The silence added never exceeds the requested proportion of the frames kept, and one more
      frame would exceed it unless nothing is left before the last run's end. */
  lemma SilenceBudget(voiced: seq<bool>, silenceProportion: real, segments: seq<Segment>)
    requires 0.0 <= silenceProportion < 1.0
    requires IsSegmentation(voiced, TargetFrames(CountVoiced(voiced), silenceProportion), segments)
    ensures WithinBudget(Total(segments), CountVoiced(voiced), silenceProportion)
    ensures Total(segments) == LastEnd(Runs(voiced))
      || !WithinBudget(Total(segments) + 1, CountVoiced(voiced), silenceProportion)
  {
    var num := CountVoiced(voiced);
    TargetBounds(num, silenceProportion);
    TotalWithinTarget(voiced, TargetFrames(num, silenceProportion), segments);
    BudgetArithmetic(Total(segments), num, silenceProportion);
  }
}
