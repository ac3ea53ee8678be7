/** Formatter::FormatWords of src/itn/formatter.cc: words are written as a timed byte string,
    composed with the chosen rewrite, and read back as timed words.

  The rewrite grammar and the search for its best path are library work; the path they choose is an
  arbitrary sequence of input and output labels whose input side is the words' byte string. */
module Formatter {
  import opened Utils
  import opened Alignment
  import opened Converters
  import opened TimingWeight

  /** One step of the chosen rewrite; label 0 is epsilon on either side. */
  datatype PathArc = PathArc(ilabel: char, olabel: char)

  /** How many input bytes the first j steps consume. */
  function ConsumedUpTo(path: seq<PathArc>, j: nat): nat
    requires j <= |path|
  {
    if j == 0 then 0 else ConsumedUpTo(path, j - 1) + if path[j - 1].ilabel == EPSILON then 0 else 1
  }

  /** Step j inserts or reads the next byte of the arcs' label string. */
  ghost predicate Reads(path: seq<PathArc>, arcs: seq<Arc>, j: nat)
    requires j < |path|
  {
    path[j].ilabel != EPSILON ==>
      ConsumedUpTo(path, j) < |arcs| && arcs[ConsumedUpTo(path, j)].olabel == path[j].ilabel
  }

  /** The input side of the path is the label string of the arcs. */
  ghost predicate Rewrites(path: seq<PathArc>, arcs: seq<Arc>)
  {
    ConsumedUpTo(path, |path|) == |arcs| && forall j :: 0 <= j < |path| ==> Reads(path, arcs, j)
  }

  /** The input bytes of the first j steps. */
  function InputUpTo(path: seq<PathArc>, j: nat): string
    requires j <= |path|
  {
    if j == 0 then "" else InputUpTo(path, j - 1) + if path[j - 1].ilabel == '\0' then "" else [path[j - 1].ilabel]
  }

  /** The output bytes of arcs. */
  function Labels(arcs: seq<Arc>): (r: string)
    ensures |r| == |arcs|
  {
    seq(|arcs|, i requires 0 <= i < |arcs| => arcs[i].olabel)
  }

  lemma {:induction false} InputLength(path: seq<PathArc>, j: nat)
    requires j <= |path|
    ensures |InputUpTo(path, j)| == ConsumedUpTo(path, j)
  {
    if j > 0 { InputLength(path, j - 1); }
  }

  /** A byte that step j reads stands in the input where the steps before it have got to. */
  lemma {:induction false} InputAt(path: seq<PathArc>, n: nat, j: nat)
    requires j < n <= |path| && path[j].ilabel != '\0'
    ensures ConsumedUpTo(path, j) < |InputUpTo(path, n)|
    ensures InputUpTo(path, n)[ConsumedUpTo(path, j)] == path[j].ilabel
  {
    if j < n - 1 {
      InputAt(path, n - 1, j);
    } else {
      InputLength(path, j);
    }
  }

  lemma {:induction false} ReadsInput(path: seq<PathArc>, arcs: seq<Arc>, n: nat)
    requires n <= |path| && forall j :: 0 <= j < n ==> Reads(path, arcs, j)
    ensures InputUpTo(path, n) <= Labels(arcs)
  {
    if n > 0 {
      ReadsInput(path, arcs, n - 1);
      InputLength(path, n - 1);
      assert Reads(path, arcs, n - 1);
    }
  }

  /** A path rewrites the arcs exactly when the input bytes of its steps are the arcs' output bytes. */
  lemma RewritesExactly(path: seq<PathArc>, arcs: seq<Arc>)
    ensures Rewrites(path, arcs) <==> InputUpTo(path, |path|) == Labels(arcs)
  {
    InputLength(path, |path|);
    if Rewrites(path, arcs) {
      ReadsInput(path, arcs, |path|);
    }
    if InputUpTo(path, |path|) == Labels(arcs) {
      forall j | 0 <= j < |path| ensures Reads(path, arcs, j) {
        if path[j].ilabel != '\0' { InputAt(path, |path|, j); }
      }
    }
  }

  function ComposedArc(arcs: seq<Arc>, path: seq<PathArc>, j: nat): Arc
    requires j < |path| && Rewrites(path, arcs)
  {
    if path[j].ilabel == EPSILON then Arc(EPSILON, path[j].olabel, ONE)
    else
      assert Reads(path, arcs, j);
      var arc := arcs[ConsumedUpTo(path, j)];
      Arc(arc.ilabel, path[j].olabel, arc.weight)
  }

  /** Composition of a linear FST with a linear path whose weights have been mapped to one: a step
      that consumes a byte keeps that byte's weight, an insertion has weight one. */
  function ComposedUpTo(arcs: seq<Arc>, path: seq<PathArc>, j: nat): (r: seq<Arc>)
    requires j <= |path| && Rewrites(path, arcs)
    ensures |r| == j
  {
    if j == 0 then [] else ComposedUpTo(arcs, path, j - 1) + [ComposedArc(arcs, path, j - 1)]
  }

  function Composed(arcs: seq<Arc>, path: seq<PathArc>): seq<Arc>
    requires Rewrites(path, arcs)
  {
    ComposedUpTo(arcs, path, |path|)
  }

  lemma {:induction false} ComposedAt(arcs: seq<Arc>, path: seq<PathArc>, n: nat, j: nat)
    requires j < n <= |path| && Rewrites(path, arcs)
    ensures ComposedUpTo(arcs, path, n)[j] == ComposedArc(arcs, path, j)
  {
    if j < n - 1 { ComposedAt(arcs, path, n - 1, j); }
  }

  // ---------------------------------------------------------------- weights survive composition

  function WordWeights(words: seq<AlignedWord>, n: nat): (ws: seq<Timing>)
    requires n <= |words|
    ensures |ws| == n && forall i :: 0 <= i < n ==> ws[i] == WordWeight(words[i])
  {
    if n == 0 then [] else WordWeights(words, n - 1) + [WordWeight(words[n - 1])]
  }

  lemma {:induction false} WeightsPrefix(a: seq<Arc>, b: seq<Arc>, n: nat)
    requires n <= |a|
    ensures WeightsUpTo(a + b, n) == WeightsUpTo(a, n)
  {
    if n > 0 { WeightsPrefix(a, b, n - 1); }
  }

  lemma WeightAfter(ws: seq<Timing>, vs: seq<Timing>, arc: Arc)
    ensures WithWeight(ws + vs, arc) == ws + WithWeight(vs, arc)
  {
  }

  lemma {:induction false} WeightsConcat(a: seq<Arc>, b: seq<Arc>, n: nat)
    requires n <= |b|
    ensures WeightsUpTo(a + b, |a| + n) == WeightsUpTo(a, |a|) + WeightsUpTo(b, n)
  {
    if n == 0 {
      WeightsPrefix(a, b, |a|);
    } else {
      WeightsConcat(a, b, n - 1);
      assert (a + b)[|a| + n - 1] == b[n - 1];
      WeightAfter(WeightsUpTo(a, |a|), WeightsUpTo(b, n - 1), b[n - 1]);
    }
  }

  lemma {:induction false} LettersWeighNothing(symbol: string, n: nat)
    requires n <= |symbol|
    ensures WeightsUpTo(LetterArcs(symbol, n), n) == []
  {
    if n > 0 {
      LettersWeighNothing(symbol, n - 1);
      WeightsConcat(LetterArcs(symbol, n - 1), [Arc(symbol[n - 1], symbol[n - 1], ONE)], 1);
    }
  }

  lemma WordHasOneWeight(w: AlignedWord)
    ensures WeightsUpTo(WordArcs(w), |WordArcs(w)|) == [WordWeight(w)]
  {
    LettersWeighNothing(w.symbol, |w.symbol|);
    WeightsConcat(LetterArcs(w.symbol, |w.symbol|), [Arc(SPACE, SPACE, WordWeight(w))], 1);
  }

  lemma {:induction false} WordsHaveTheirWeights(words: seq<AlignedWord>, n: nat)
    requires n <= |words|
    ensures var arcs := ByteArcs(words, n); WeightsUpTo(arcs, |arcs|) == WordWeights(words, n)
  {
    if n > 0 {
      WordsHaveTheirWeights(words, n - 1);
      WordHasOneWeight(words[n - 1]);
      WeightsConcat(ByteArcs(words, n - 1), WordArcs(words[n - 1]), |WordArcs(words[n - 1])|);
    }
  }

  /** One more arc adds its weight, if it has one. */
  lemma WeightsAppend(arcs: seq<Arc>, arc: Arc)
    ensures WeightsUpTo(arcs + [arc], |arcs| + 1) == WithWeight(WeightsUpTo(arcs, |arcs|), arc)
  {
    WeightsPrefix(arcs, [arc], |arcs|);
  }

  lemma {:induction false} CompositionKeepsWeights(arcs: seq<Arc>, path: seq<PathArc>, j: nat)
    requires j <= |path| && Rewrites(path, arcs)
    ensures ConsumedUpTo(path, j) <= |arcs|
    ensures WeightsUpTo(ComposedUpTo(arcs, path, j), j) == WeightsUpTo(arcs, ConsumedUpTo(path, j))
  {
    if j > 0 {
      CompositionKeepsWeights(arcs, path, j - 1);
      var c, arc := ConsumedUpTo(path, j - 1), ComposedArc(arcs, path, j - 1);
      WeightsAppend(ComposedUpTo(arcs, path, j - 1), arc);
      assert Reads(path, arcs, j - 1);
      assert arc.weight == if path[j - 1].ilabel == EPSILON then ONE else arcs[c].weight;
    }
  }

  lemma {:induction false} WeightIsListed(arcs: seq<Arc>, n: nat, i: nat)
    requires i < n <= |arcs| && arcs[i].weight != ONE
    ensures arcs[i].weight in WeightsUpTo(arcs, n)
  {
    if i < n - 1 {
      WeightIsListed(arcs, n - 1, i);
    } else {
      var ws := WeightsUpTo(arcs, n);
      assert ws[|ws| - 1] == arcs[i].weight;
    }
  }

  /** Composition leaves the words' weights, in order, and nothing else. */
  lemma ComposedWeights(words: seq<AlignedWord>, path: seq<PathArc>)
    requires Rewrites(path, ByteArcs(words, |words|))
    ensures var arcs := Composed(ByteArcs(words, |words|), path);
      && |arcs| == |path|
      && WeightsUpTo(arcs, |arcs|) == WordWeights(words, |words|)
      && ProperWeights(arcs)
  {
    var bytes := ByteArcs(words, |words|);
    CompositionKeepsWeights(bytes, path, |path|);
    WordsHaveTheirWeights(words, |words|);
    var arcs := Composed(bytes, path);
    forall i | 0 <= i < |arcs| && arcs[i].weight != ONE ensures Proper(arcs[i].weight) {
      WeightIsListed(arcs, |arcs|, i);
    }
  }

  // ---------------------------------------------------------------- what output words consume

  /** How many of the first n words end within the first c bytes of their byte string. */
  function WordsEnded(words: seq<AlignedWord>, n: nat, c: nat): nat
    requires n <= |words|
  {
    if n == 0 then 0 else WordsEnded(words, n - 1, c) + if |ByteArcs(words, n)| <= c then 1 else 0
  }

  /** For each space among the first n outputs, how many input words have been consumed to their ends
      when it is written. */
  function EndedUpTo(words: seq<AlignedWord>, path: seq<PathArc>, n: nat): seq<nat>
    requires n <= |path|
  {
    if n == 0 then []
    else
      EndedUpTo(words, path, n - 1)
        + if path[n - 1].olabel == SPACE then [WordsEnded(words, |words|, ConsumedUpTo(path, n))] else []
  }

  /** The same for the output words. */
  function Ended(words: seq<AlignedWord>, path: seq<PathArc>): seq<nat> { EndedUpTo(words, path, |path|) }

  lemma {:induction false} AllEnded(words: seq<AlignedWord>, n: nat, c: nat)
    requires n <= |words| && |ByteArcs(words, n)| <= c
    ensures WordsEnded(words, n, c) == n
  {
    if n > 0 { AllEnded(words, n - 1, c); }
  }

  lemma {:induction false} FewerWeights(arcs: seq<Arc>, m: nat, n: nat)
    requires m <= n <= |arcs|
    ensures |WeightsUpTo(arcs, m)| <= |WeightsUpTo(arcs, n)|
  {
    if m < n { FewerWeights(arcs, m, n - 1); }
  }

  /** Inside a word there is no weight but on its closing space. */
  lemma WordWeighsAtItsEnd(w: AlignedWord, d: nat)
    requires d <= |WordArcs(w)|
    ensures |WeightsUpTo(WordArcs(w), d)| == if d < |WordArcs(w)| then 0 else 1
  {
    if d < |WordArcs(w)| {
      LettersWeighNothing(w.symbol, |w.symbol|);
      WeightsPrefix(LetterArcs(w.symbol, |w.symbol|), [Arc(SPACE, SPACE, WordWeight(w))], d);
      FewerWeights(LetterArcs(w.symbol, |w.symbol|), d, |w.symbol|);
    } else {
      WordHasOneWeight(w);
    }
  }

  /** Inside the last of n words all earlier ones have ended. */
  lemma WeightsInLastWord(words: seq<AlignedWord>, n: nat, c: nat)
    requires 0 < n <= |words| && |ByteArcs(words, n - 1)| < c <= |ByteArcs(words, n)|
    ensures |WeightsUpTo(ByteArcs(words, n), c)| == n - 1 + if c == |ByteArcs(words, n)| then 1 else 0
  {
    var before, w := ByteArcs(words, n - 1), WordArcs(words[n - 1]);
    WeightsConcat(before, w, c - |before|);
    WordsHaveTheirWeights(words, n - 1);
    WordWeighsAtItsEnd(words[n - 1], c - |before|);
  }

  /** The weights among the first c bytes are those of the words that end there. */
  lemma {:induction false} WeightsAreWordsEnded(words: seq<AlignedWord>, n: nat, c: nat)
    requires n <= |words| && c <= |ByteArcs(words, n)|
    ensures |WeightsUpTo(ByteArcs(words, n), c)| == WordsEnded(words, n, c)
  {
    if n > 0 {
      var before := ByteArcs(words, n - 1);
      if c <= |before| {
        WeightsPrefix(before, WordArcs(words[n - 1]), c);
        WeightsAreWordsEnded(words, n - 1, c);
      } else {
        WeightsInLastWord(words, n, c);
        AllEnded(words, n - 1, c);
      }
    }
  }

  lemma {:induction false} ComposedPrefix(arcs: seq<Arc>, path: seq<PathArc>, j: nat, n: nat)
    requires j <= n <= |path| && Rewrites(path, arcs)
    ensures ComposedUpTo(arcs, path, j) == ComposedUpTo(arcs, path, n)[..j]
  {
    if j < n { ComposedPrefix(arcs, path, j, n - 1); }
  }

  /** After j steps the composition has the weights of the words consumed to their ends. */
  lemma ComposedWeightsEnded(words: seq<AlignedWord>, path: seq<PathArc>, j: nat)
    requires j <= |path| && Rewrites(path, ByteArcs(words, |words|))
    ensures |WeightsUpTo(Composed(ByteArcs(words, |words|), path), j)|
         == WordsEnded(words, |words|, ConsumedUpTo(path, j))
  {
    var bytes := ByteArcs(words, |words|);
    var all, some := Composed(bytes, path), ComposedUpTo(bytes, path, j);
    ComposedPrefix(bytes, path, j, |path|);
    assert all == some + all[j..];
    WeightsPrefix(some, all[j..], j);
    CompositionKeepsWeights(bytes, path, j);
    WeightsAreWordsEnded(words, |words|, ConsumedUpTo(path, j));
  }

  /** What the reader counts at the output spaces is what the path has consumed there. */
  lemma {:induction false} EndsAreEnded(words: seq<AlignedWord>, path: seq<PathArc>, n: nat)
    requires n <= |path| && Rewrites(path, ByteArcs(words, |words|))
    ensures EndsUpTo(Composed(ByteArcs(words, |words|), path), n) == EndedUpTo(words, path, n)
  {
    if n > 0 {
      EndsAreEnded(words, path, n - 1);
      ComposedAt(ByteArcs(words, |words|), path, |path|, n - 1);
      ComposedWeightsEnded(words, path, n);
    }
  }

  // ---------------------------------------------------------------- main results

  /** The interval from the earliest start to the latest end of words a..b. */
  ghost predicate IsWordHull(words: seq<AlignedWord>, a: nat, b: nat, startTime: int, endTime: int)
  {
    && a < b <= |words|
    && (forall i :: a <= i < b ==> startTime <= words[i].startTime && words[i].startTime + words[i].duration <= endTime)
    && (exists i :: a <= i < b && words[i].startTime == startTime)
    && (exists i :: a <= i < b && words[i].startTime + words[i].duration == endTime)
  }

  /** Word j of the result spans exactly the hull of the input words in stretch j. */
  ghost predicate SpansHull(words: seq<AlignedWord>, w: OutWord, s: Stretch)
  {
    && w.times.Interval?
    && IsWordHull(words, s.from, s.to, w.times.startTime, w.times.startTime + w.times.duration)
  }

  lemma {:induction false} SpanIsWordHull(words: seq<AlignedWord>, a: nat, b: nat, w: OutWord)
    requires a < b <= |words| && w.times == TimesOf(Span(WordWeights(words, |words|), a, b))
    ensures SpansHull(words, w, Stretch(a, b))
  {
    var ws := WordWeights(words, |words|);
    SpanIsHull(ws, a, b);
    var lo, hi := Span(ws, a, b).start.v, Span(ws, a, b).end.v;
    var i :| a <= i < b && ws[i].start == Finite(lo);
    var j :| a <= j < b && ws[j].end == Finite(hi);
    assert words[i].startTime == lo && words[j].startTime + words[j].duration == hi;
    forall k | a <= k < b ensures lo <= words[k].startTime && words[k].startTime + words[k].duration <= hi {
      assert ws[k] == WordWeight(words[k]);
    }
  }

  /** The output words are matched in order with consecutive non-empty groups of input words that use
      up all of them, each output word spanning the hull of its group. */
  ghost predicate Grouped(words: seq<AlignedWord>, out: seq<OutWord>, groups: seq<Stretch>)
  {
    && |groups| == |out|
    && EndBefore(groups, |groups|) == |words|
    && forall j :: 0 <= j < |groups| ==>
         EndBefore(groups, j) == groups[j].from && SpansHull(words, out[j], groups[j])
  }

  lemma {:induction false} TimedIsGrouped(words: seq<AlignedWord>, out: seq<OutWord>, groups: seq<Stretch>)
    requires Timed(out, WordWeights(words, |words|), groups)
    requires |groups| == |out| && EndBefore(groups, |groups|) == |words|
    ensures Grouped(words, out, groups)
  {
    forall j | 0 <= j < |groups| ensures SpansHull(words, out[j], groups[j]) {
      SpanIsWordHull(words, groups[j].from, groups[j].to, out[j]);
    }
  }

  /** Group j reaches to the last input word consumed to its end when output word j is complete, or
      one word further when none has been since the group before: then output word j was left waiting
      and takes the next input word to end. */
  ghost predicate Consumed(words: seq<AlignedWord>, path: seq<PathArc>, groups: seq<Stretch>)
  {
    |groups| == |Ended(words, path)| && Reaching(groups, Ended(words, path))
  }

  predicate EndsInSpace(path: seq<PathArc>) { path != [] && path[|path| - 1].olabel == SPACE }

  /** FormatWords keeps time: for a rewrite whose output ends in a space, every output word has times
      exactly when the weights come in time, and then each output word spans the input words that were
      consumed while it was written. */
  lemma FormatKeepsTime(words: seq<AlignedWord>, path: seq<PathArc>)
    returns (groups: seq<Stretch>)
    requires Rewrites(path, ByteArcs(words, |words|)) && EndsInSpace(path)
    ensures var arcs := Composed(ByteArcs(words, |words|), path);
      && ((forall j :: 0 <= j < |Converted(arcs)| ==> Converted(arcs)[j].times.Interval?) <==> Timely(arcs))
      && (Timely(arcs) ==> Grouped(words, Converted(arcs), groups) && Consumed(words, path, groups))
  {
    var bytes := ByteArcs(words, |words|);
    var arcs := Composed(bytes, path);
    ComposedWeights(words, path);
    assert WatchUpTo(arcs, |path|) != Weighted by {
      ComposedAt(bytes, path, |path|, |path| - 1);
      assert arcs[|path| - 1].olabel == SPACE;
    }
    assert EndsUpTo(arcs, |path|) == Ended(words, path) by { EndsAreEnded(words, path, |path|); }
    groups := ConvertTimes(arcs);
    if Timely(arcs) { TimedIsGrouped(words, Converted(arcs), groups); }
  }

  /** The path and the words determine the groups. */
  lemma GroupsDetermined(words: seq<AlignedWord>, path: seq<PathArc>, out: seq<OutWord>, a: seq<Stretch>,
                         b: seq<Stretch>)
    requires Grouped(words, out, a) && Consumed(words, path, a)
    requires Grouped(words, out, b) && Consumed(words, path, b)
    ensures a == b
  {
    ReachingDetermined(a, b, Ended(words, path), |a|);
  }

  /** The ordinary case: each output word consumes the closing space of some input word while it is
      written; then the weights come in time. */
  lemma {:induction false} OwnSpacesKeepTime(words: seq<AlignedWord>, path: seq<PathArc>)
    requires Rewrites(path, ByteArcs(words, |words|)) && Growing(Ended(words, path))
    ensures Timely(Composed(ByteArcs(words, |words|), path))
  {
    EndsAreEnded(words, path, |path|);
    GrowingIsTimely(Composed(ByteArcs(words, |words|), path), |path|);
  }

  /** That is exactly when every group is the input words that ended while its output word was written. */
  lemma OwnSpacesMeanOwnGroups(words: seq<AlignedWord>, path: seq<PathArc>, out: seq<OutWord>,
                               groups: seq<Stretch>)
    requires Grouped(words, out, groups) && Consumed(words, path, groups)
    ensures Growing(Ended(words, path))
      <==> forall j :: 0 <= j < |groups| ==> groups[j].to == Ended(words, path)[j]
  {
    GrowingMeansOwn(groups, Ended(words, path));
  }

  /** The output bytes of the first j rewrite steps. */
  function WrittenUpTo(path: seq<PathArc>, j: nat): string
    requires j <= |path|
  {
    if j == 0 then ""
    else WrittenUpTo(path, j - 1) + if path[j - 1].olabel == EPSILON then "" else [path[j - 1].olabel]
  }

  lemma {:induction false} ComposedOutput(arcs: seq<Arc>, path: seq<PathArc>, j: nat)
    requires j <= |path| && Rewrites(path, arcs)
    ensures OutputUpTo(Composed(arcs, path), j) == WrittenUpTo(path, j)
  {
    if j > 0 {
      ComposedOutput(arcs, path, j - 1);
      ComposedAt(arcs, path, |path|, j - 1);
    }
  }

  /** FormatWords keeps text: the output words, each followed by a space, are exactly the rewrite's
      output bytes up to the last space; nothing is left over when the output ends in one. */
  lemma FormatKeepsText(words: seq<AlignedWord>, path: seq<PathArc>) returns (rest: string)
    requires Rewrites(path, ByteArcs(words, |words|))
    ensures Clean(rest) && (EndsInSpace(path) ==> rest == "")
    ensures Converters.Spelled(Converted(Composed(ByteArcs(words, |words|), path))) + rest
         == WrittenUpTo(path, |path|)
  {
    var bytes := ByteArcs(words, |words|);
    var arcs := Composed(bytes, path);
    ComposedOutput(bytes, path, |path|);
    WordsSpellOutput(arcs, |arcs|);
    rest := ReadUpTo(arcs, |arcs|).symbol;
    assert path != [] ==> arcs[|path| - 1] == ComposedArc(bytes, path, |path| - 1);
  }

  function EndOf(w: OutWord): int
    requires w.times.Interval?
  {
    w.times.startTime + w.times.duration
  }

  /** Every input word is in some group. */
  lemma {:induction false} GroupOf(groups: seq<Stretch>, i: nat, n: nat) returns (g: nat)
    requires n <= |groups| && i < EndBefore(groups, n)
    requires forall j :: 0 <= j < |groups| ==> EndBefore(groups, j) == groups[j].from
    ensures g < n && groups[g].from <= i < groups[g].to
  {
    if i < EndBefore(groups, n - 1) {
      g := GroupOf(groups, i, n - 1);
    } else {
      g := n - 1;
    }
  }

  /** Grouping leaves the overall hull as it was: the earliest start and the latest end of the output
      words are those of the input words. */
  lemma OverallHullKept(words: seq<AlignedWord>, out: seq<OutWord>, groups: seq<Stretch>,
                                           lo: int, hi: int)
    requires Grouped(words, out, groups) && IsWordHull(words, 0, |words|, lo, hi)
    ensures forall j :: 0 <= j < |out| ==>
      out[j].times.Interval? && lo <= out[j].times.startTime && EndOf(out[j]) <= hi
    ensures exists j :: 0 <= j < |out| && out[j].times.Interval? && out[j].times.startTime == lo
    ensures exists j :: 0 <= j < |out| && out[j].times.Interval? && EndOf(out[j]) == hi
  {
    forall j | 0 <= j < |out|
      ensures out[j].times.Interval? && lo <= out[j].times.startTime && EndOf(out[j]) <= hi
    {
      assert SpansHull(words, out[j], groups[j]);
    }
    var i :| 0 <= i < |words| && words[i].startTime == lo;
    var g := GroupOf(groups, i, |groups|);
    assert SpansHull(words, out[g], groups[g]);
    var k :| 0 <= k < |words| && words[k].startTime + words[k].duration == hi;
    var h := GroupOf(groups, k, |groups|);
    assert SpansHull(words, out[h], groups[h]);
  }

  /** A word whose second half gets a space before it: what composition makes of it. */
  function SplitPath(): seq<PathArc>
  {
    [PathArc('a', 'a'), PathArc(EPSILON, SPACE), PathArc('b', 'b'), PathArc(SPACE, SPACE)]
  }

  function SplitArcs(t: Timing): seq<Arc>
  {
    [Arc('a', 'a', ONE), Arc(EPSILON, SPACE, ONE), Arc('b', 'b', ONE), Arc(SPACE, SPACE, t)]
  }

  lemma SplitComposes(w: AlignedWord)
    requires w.symbol == "ab"
    ensures Rewrites(SplitPath(), ByteArcs([w], 1))
    ensures Composed(ByteArcs([w], 1), SplitPath()) == SplitArcs(WordWeight(w))
  {
    var path, t := SplitPath(), WordWeight(w);
    var bytes := [Arc('a', 'a', ONE), Arc('b', 'b', ONE), Arc(SPACE, SPACE, t)];
    assert LetterArcs(w.symbol, 0) == [];
    assert LetterArcs(w.symbol, 1) == [Arc('a', 'a', ONE)];
    assert LetterArcs(w.symbol, 2) == [Arc('a', 'a', ONE), Arc('b', 'b', ONE)];
    assert ByteArcs([w], 0) == [];
    assert ByteArcs([w], 1) == bytes;
    assert ConsumedUpTo(path, 0) == 0;
    assert ConsumedUpTo(path, 1) == 1;
    assert ConsumedUpTo(path, 2) == 1;
    assert ConsumedUpTo(path, 3) == 2;
    assert ConsumedUpTo(path, 4) == 3;
    assert Rewrites(path, bytes);
    var arcs := SplitArcs(t);
    assert ComposedUpTo(bytes, path, 0) == arcs[..0];
    assert ComposedUpTo(bytes, path, 1) == arcs[..1];
    assert ComposedUpTo(bytes, path, 2) == arcs[..2];
    assert ComposedUpTo(bytes, path, 3) == arcs[..3];
    assert ComposedUpTo(bytes, path, 4) == arcs;
  }

  /** A space inserted before a word's own space leaves the first output word without times. */
  lemma InsertedSpaceLosesTime(w: AlignedWord)
    requires w.symbol == "ab"
    ensures Rewrites(SplitPath(), ByteArcs([w], 1)) && EndsInSpace(SplitPath())
    ensures !Timely(Composed(ByteArcs([w], 1), SplitPath()))
    ensures Converted(Composed(ByteArcs([w], 1), SplitPath()))
         == [OutWord("a", Undefined), OutWord("b", Interval(w.startTime, w.duration))]
  {
    SplitComposes(w);
    var arcs, a := SplitArcs(WordWeight(w)), OutWord("a", Undefined);
    assert WatchUpTo(arcs, 0) == Fresh && ReadUpTo(arcs, 0) == START;
    assert WatchUpTo(arcs, 1) == Fresh && ReadUpTo(arcs, 1) == Reader([], "a", ONE, false);
    assert WatchUpTo(arcs, 2) == Waiting && ReadUpTo(arcs, 2) == Reader([a], "", ONE, true);
    assert WatchUpTo(arcs, 3) == Waiting && ReadUpTo(arcs, 3) == Reader([a], "b", ONE, true);
    assert WatchUpTo(arcs, 4) == Lost;
  }

  // ---------------------------------------------------------------- the source's code

  /** FormatWords; without a rewrite of the words the composition is empty.  The result spells the
      rewrite's output up to its last space; and when the output ends there, every word has times
      exactly when the weights come in time, and then it spans the hull of the input words that were
      consumed while it was written. */
  method FormatWords(words: seq<AlignedWord>, path: Option<seq<PathArc>>)
    returns (formatted: seq<OutWord>, ghost rest: string, ghost groups: seq<Stretch>)
    requires path.Some? ==> Rewrites(path.value, ByteArcs(words, |words|))
    ensures path.None? ==> formatted == []
    ensures path.Some? ==>
      Clean(rest) && Converters.Spelled(formatted) + rest == WrittenUpTo(path.value, |path.value|)
    ensures path.Some? && EndsInSpace(path.value) ==>
      var timely := Timely(Composed(ByteArcs(words, |words|), path.value));
      && rest == ""
      && ((forall j :: 0 <= j < |formatted| ==> formatted[j].times.Interval?) <==> timely)
      && (timely ==> Grouped(words, formatted, groups) && Consumed(words, path.value, groups))
    ensures path.Some? ==> formatted == Converted(Composed(ByteArcs(words, |words|), path.value))
  {
    rest, groups := "", [];
    if path.None? {
      formatted := Converters.Convert([]);
      return;
    }
    var timingSymbolFst := ConvertToByteFst(words);
    var timingByteFst := Composed(timingSymbolFst, path.value);
    formatted := Converters.Convert(timingByteFst);
    rest := FormatKeepsText(words, path.value);
    if EndsInSpace(path.value) {
      groups := FormatKeepsTime(words, path.value);
    }
  }
}
