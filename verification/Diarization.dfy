/** Speaker labels for voiced segments and for words: the label assembly of
    ComputeXvectorDiarization (src/diarization.cc) and TagSpeaker (src/api/services.cc). */
module Diarization {
  import opened Alignment
  import VadSegmentation

  type Segment = VadSegmentation.Segment

  datatype DiarizationSegment = DiarizationSegment(spkId: int, startFrame: nat, endFrame: nat)

  /** OutOfRange stands for reading the first element of an empty vector. */
  datatype Labels = Labelled(segments: seq<DiarizationSegment>) | OutOfRange

  /** The decisions label the given segments, in the same order. */
  ghost predicate LabelsOf(decisions: seq<DiarizationSegment>, segmentation: seq<Segment>)
  {
    && |decisions| == |segmentation|
    && forall i :: 0 <= i < |decisions| ==>
         decisions[i].startFrame == segmentation[i].start && decisions[i].endFrame == segmentation[i].end
  }

  /** No segment comes back exactly when no frame is voiced. */
  lemma EmptyIffSilent(voiced: seq<bool>, target: int, segmentation: seq<Segment>)
    requires VadSegmentation.IsSegmentation(voiced, target, segmentation)
    ensures segmentation == [] <==> forall n :: 0 <= n < |voiced| ==> !voiced[n]
  {
    VadSegmentation.SegmentationProperties(voiced, target, segmentation);
    if segmentation == [] {
      forall n | 0 <= n < |voiced| ensures !voiced[n] {
        assert voiced[n] ==> VadSegmentation.Covers(segmentation, n);
      }
    } else {
      VadSegmentation.RunsAreSound(voiced, |voiced|);
      assert VadSegmentation.IsRun(voiced, |voiced|, VadSegmentation.Runs(voiced)[0]);
    }
  }

  /** Segmentation and label assembly.  The clustering of two or more segments is a library call
      that returns one speaker id per segment. */
  method ComputeDiarization(voiced: seq<bool>, silenceProportion: real, cluster: seq<Segment> -> seq<int>)
    returns (labels: Labels)
    requires |voiced| >= 1 && silenceProportion < 1.0
    requires forall w :: |cluster(w)| == |w|
    ensures labels.OutOfRange? <==> forall n :: 0 <= n < |voiced| ==> !voiced[n]
    ensures labels.Labelled? ==>
      exists segmentation ::
        && VadSegmentation.IsSegmentation(voiced,
             VadSegmentation.TargetFrames(VadSegmentation.CountVoiced(voiced), silenceProportion), segmentation)
        && LabelsOf(labels.segments, segmentation)
        && forall i :: 0 <= i < |segmentation| ==>
             labels.segments[i].spkId == if |segmentation| == 1 then 1 else cluster(segmentation)[i]
  {
    var segmentation := VadSegmentation.SegmentByVad(voiced, silenceProportion);
    EmptyIffSilent(voiced, VadSegmentation.TargetFrames(VadSegmentation.CountVoiced(voiced), silenceProportion),
                   segmentation);
    if |segmentation| < 2 {
      if |segmentation| == 0 {
        return OutOfRange;
      }
      var only := [DiarizationSegment(1, segmentation[0].start, segmentation[0].end)];
      assert LabelsOf(only, segmentation);
      return Labelled(only);
    }
    var spkIds := cluster(segmentation);
    var decisions := [];
    for idx := 0 to |spkIds|
      invariant |decisions| == idx
      invariant forall i :: 0 <= i < idx ==>
        decisions[i] == DiarizationSegment(spkIds[i], segmentation[i].start, segmentation[i].end)
    {
      decisions := decisions + [DiarizationSegment(spkIds[idx], segmentation[idx].start, segmentation[idx].end)];
    }
    assert LabelsOf(decisions, segmentation);
    return Labelled(decisions);
  }

  // ------------------------------------------------------------------ word tagging

  /** The alternative whose word list TagSpeaker updates in place. */
  class SpeechRecognitionAlternative {
    var words: seq<WordInfo>

    constructor (words: seq<WordInfo>)
      ensures this.words == words
    {
      this.words := words;
    }
  }

  function FrameMillis(frames: nat, frameShift: real): int
  {
    (frames as real * frameShift).Floor
  }

  predicate Contains(d: DiarizationSegment, frameShift: real, millis: int)
  {
    FrameMillis(d.startFrame, frameShift) <= millis < FrameMillis(d.endFrame, frameShift)
  }

  /** The millisecond numbered t has begun when the decision's first frame begins and is over when its
      last one ends. */
  predicate InInterval(d: DiarizationSegment, frameShift: real, t: int)
  {
    d.startFrame as real * frameShift < (t + 1) as real <= d.endFrame as real * frameShift
  }

  lemma ContainsExactly(d: DiarizationSegment, frameShift: real, t: int)
    ensures Contains(d, frameShift, t) <==> InInterval(d, frameShift, t)
  {
  }

  /** Index of the first decision from `from` on that contains the time; |decisions| when none does. */
  function FirstHit(decisions: seq<DiarizationSegment>, frameShift: real, millis: int, from: nat): (j: nat)
    requires from <= |decisions|
    ensures from <= j <= |decisions|
    ensures j < |decisions| ==> Contains(decisions[j], frameShift, millis)
    ensures forall i :: from <= i < j ==> !Contains(decisions[i], frameShift, millis)
    decreases |decisions| - from
  {
    if from == |decisions| || Contains(decisions[from], frameShift, millis) then from
    else FirstHit(decisions, frameShift, millis, from + 1)
  }

  /** A word with the tag of the first decision that contains its start, or as it was. */
  function Tagged(word: WordInfo, decisions: seq<DiarizationSegment>, frameShift: real): WordInfo
  {
    var j := FirstHit(decisions, frameShift, ToMillis(word.startTime), 0);
    if j < |decisions| then word.(speakerTag := decisions[j].spkId) else word
  }

  /** Decision j is the first whose interval t lies in. */
  ghost predicate IsFirst(decisions: seq<DiarizationSegment>, frameShift: real, t: int, j: nat)
    requires j < |decisions|
  {
    InInterval(decisions[j], frameShift, t) && forall k :: 0 <= k < j ==> !InInterval(decisions[k], frameShift, t)
  }

  /** The word's tag is that of the first decision whose interval its start lies in, or unchanged when it
      lies in none, and nothing else of the word changes. */
  ghost predicate TaggedByFirst(word: WordInfo, tagged: WordInfo, decisions: seq<DiarizationSegment>, frameShift: real)
  {
    var t := ToMillis(word.startTime);
    && (forall j :: 0 <= j < |decisions| && IsFirst(decisions, frameShift, t, j) ==>
          tagged == WordInfo(word.word, word.startTime, word.endTime, decisions[j].spkId))
    && ((forall j :: 0 <= j < |decisions| ==> !InInterval(decisions[j], frameShift, t)) ==> tagged == word)
  }

  lemma TaggedIsFirst(word: WordInfo, decisions: seq<DiarizationSegment>, frameShift: real)
    ensures TaggedByFirst(word, Tagged(word, decisions, frameShift), decisions, frameShift)
  {
    var t := ToMillis(word.startTime);
    var hit := FirstHit(decisions, frameShift, t, 0);
    forall j | 0 <= j < |decisions|
      ensures Contains(decisions[j], frameShift, t) <==> InInterval(decisions[j], frameShift, t)
    {
      ContainsExactly(decisions[j], frameShift, t);
    }
  }

  method TagSpeaker(decisions: seq<DiarizationSegment>, frameShift: real, alternative: SpeechRecognitionAlternative)
    modifies alternative
    ensures |alternative.words| == |old(alternative.words)|
    ensures forall i :: 0 <= i < |alternative.words| ==>
      alternative.words[i] == Tagged(old(alternative.words)[i], decisions, frameShift)
    ensures forall i :: 0 <= i < |alternative.words| ==>
      TaggedByFirst(old(alternative.words)[i], alternative.words[i], decisions, frameShift)
  {
    ghost var before := alternative.words;
    forall i | 0 <= i < |before|
      ensures TaggedByFirst(before[i], Tagged(before[i], decisions, frameShift), decisions, frameShift)
    {
      TaggedIsFirst(before[i], decisions, frameShift);
    }
    if |decisions| == 0 {
      return;
    }
    for i := 0 to |alternative.words|
      invariant |alternative.words| == |before|
      invariant forall k :: 0 <= k < i ==> alternative.words[k] == Tagged(before[k], decisions, frameShift)
      invariant forall k :: i <= k < |before| ==> alternative.words[k] == before[k]
    {
      var word := alternative.words[i];
      var startTime := ToMillis(word.startTime);
      var seen := 0;
      while seen < |decisions|
        invariant 0 <= seen <= |decisions|
        invariant FirstHit(decisions, frameShift, startTime, 0) == FirstHit(decisions, frameShift, startTime, seen)
        invariant word == before[i]
      {
        var startFrameMilli := FrameMillis(decisions[seen].startFrame, frameShift);
        var endFrameMilli := FrameMillis(decisions[seen].endFrame, frameShift);
        if startTime >= startFrameMilli && startTime < endFrameMilli {
          word := word.(speakerTag := decisions[seen].spkId);
          break;
        }
        seen := seen + 1;
      }
      alternative.words := alternative.words[i := word];
    }
  }

  /** Millisecond bounds of frames keep the frames' order. */
  lemma FrameMillisMonotone(a: nat, b: nat, frameShift: real)
    requires a <= b && 0.0 < frameShift
    ensures FrameMillis(a, frameShift) <= FrameMillis(b, frameShift)
  {
    VadSegmentation.Scale(a as real, b as real, frameShift);
  }

  /** Over the segments of a segmentation, whichever decision contains a time is the only one,
      so the first hit is the only hit. */
  lemma HitIsUnique(decisions: seq<DiarizationSegment>, segmentation: seq<Segment>, bound: int,
                    frameShift: real, millis: int, j: nat)
    requires VadSegmentation.Ordered(segmentation, bound) && LabelsOf(decisions, segmentation)
    requires 0.0 < frameShift
    requires j < |decisions| && Contains(decisions[j], frameShift, millis)
    ensures forall i :: 0 <= i < |decisions| && Contains(decisions[i], frameShift, millis) ==> i == j
    ensures FirstHit(decisions, frameShift, millis, 0) == j
  {
    forall i | 0 <= i < |decisions| && Contains(decisions[i], frameShift, millis) ensures i == j {
      if i < j {
        FrameMillisMonotone(segmentation[i].end, segmentation[j].start, frameShift);
      } else if j < i {
        FrameMillisMonotone(segmentation[j].end, segmentation[i].start, frameShift);
      }
    }
  }

  /** Over the segments of a segmentation the tag is that of the one decision whose interval holds the
      word's start. */
  lemma TagIsOwn(decisions: seq<DiarizationSegment>, segmentation: seq<Segment>, bound: int, frameShift: real,
                 word: WordInfo)
    requires VadSegmentation.Ordered(segmentation, bound) && LabelsOf(decisions, segmentation) && 0.0 < frameShift
    ensures forall j :: 0 <= j < |decisions| && InInterval(decisions[j], frameShift, ToMillis(word.startTime)) ==>
      Tagged(word, decisions, frameShift) == word.(speakerTag := decisions[j].spkId)
    ensures (forall j :: 0 <= j < |decisions| ==> !InInterval(decisions[j], frameShift, ToMillis(word.startTime))) ==>
      Tagged(word, decisions, frameShift) == word
  {
    var t := ToMillis(word.startTime);
    TaggedIsFirst(word, decisions, frameShift);
    forall j | 0 <= j < |decisions| && InInterval(decisions[j], frameShift, t)
      ensures Tagged(word, decisions, frameShift) == word.(speakerTag := decisions[j].spkId)
    {
      ContainsExactly(decisions[j], frameShift, t);
      HitIsUnique(decisions, segmentation, bound, frameShift, t, j);
    }
  }

  /** Speaker tagging end to end: over a segmentation of the audio, a converted word gets the speaker of
      decision j exactly when the word's own start time lies between the times of decision j's first
      frame and of the end of its last; a word in no interval keeps the default tag 0. */
  lemma TaggingIsExact(voiced: seq<bool>, target: int, segmentation: seq<Segment>,
                       decisions: seq<DiarizationSegment>, frameShift: real, ali: AlignedWord)
    requires VadSegmentation.IsSegmentation(voiced, target, segmentation)
    requires LabelsOf(decisions, segmentation) && 0.0 < frameShift
    ensures forall j :: 0 <= j < |decisions| && InInterval(decisions[j], frameShift, ali.startTime) ==>
      Tagged(Convert(ali), decisions, frameShift) == Convert(ali).(speakerTag := decisions[j].spkId)
    ensures (forall j :: 0 <= j < |decisions| ==> !InInterval(decisions[j], frameShift, ali.startTime)) ==>
      Tagged(Convert(ali), decisions, frameShift) == Convert(ali)
  {
    VadSegmentation.SegmentationProperties(voiced, target, segmentation);
    ConvertKeepsTimes(ali);
    TagIsOwn(decisions, segmentation, |voiced|, frameShift, Convert(ali));
  }
}
