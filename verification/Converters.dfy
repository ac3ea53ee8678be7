/** Timed byte strings: ConvertToByteFst and Convert of src/itn/converters.cc.

  A linear FST is the sequence of its arcs in state order.  A label is a byte, written as a char;
  label 0 is epsilon. */
module Converters {
  import opened Utils
  import opened Alignment
  import opened TimingWeight

  const EPSILON: char := '\0'

  const SPACE: char := ' '

  datatype Arc = Arc(ilabel: char, olabel: char, weight: Timing)

  /** Times of a converted word.  Undefined stands for casting an infinite weight to an integer. */
  datatype WordTimes = Interval(startTime: int, duration: int) | Undefined

  datatype OutWord = OutWord(symbol: string, times: WordTimes)

  // ---------------------------------------------------------------- writing

  function WordWeight(w: AlignedWord): Timing
  {
    Timing(Finite(w.startTime), Finite(w.startTime + w.duration))
  }

  function LetterArcs(symbol: string, n: nat): (arcs: seq<Arc>)
    requires n <= |symbol|
    ensures |arcs| == n
  {
    if n == 0 then [] else LetterArcs(symbol, n - 1) + [Arc(symbol[n - 1], symbol[n - 1], ONE)]
  }

  /** A word's bytes, then a space that carries its times. */
  function WordArcs(w: AlignedWord): seq<Arc>
  {
    LetterArcs(w.symbol, |w.symbol|) + [Arc(SPACE, SPACE, WordWeight(w))]
  }

  function ByteArcs(words: seq<AlignedWord>, n: nat): seq<Arc>
    requires n <= |words|
  {
    if n == 0 then [] else ByteArcs(words, n - 1) + WordArcs(words[n - 1])
  }

  method ConvertToByteFst(words: seq<AlignedWord>) returns (fst: seq<Arc>)
    ensures fst == ByteArcs(words, |words|)
  {
    fst := [];
    for i := 0 to |words|
      invariant fst == ByteArcs(words, i)
    {
      var ali := words[i];
      for k := 0 to |ali.symbol|
        invariant fst == ByteArcs(words, i) + LetterArcs(ali.symbol, k)
      {
        fst := fst + [Arc(ali.symbol[k], ali.symbol[k], ONE)];
      }
      var w := Timing(Finite(ali.startTime), Finite(ali.startTime + ali.duration));
      fst := fst + [Arc(SPACE, SPACE, w)];
    }
  }

  // ---------------------------------------------------------------- reading

  function TimesOf(w: Timing): WordTimes
  {
    if Proper(w) then Interval(w.start.v, w.end.v - w.start.v) else Undefined
  }

  /** The variables of Convert's loop. */
  datatype Reader = Reader(words: seq<OutWord>, symbol: string, weight: Timing, lastMissingTime: bool)

  const START := Reader([], "", ONE, false)

  /** One turn of the loop. */
  function Read(r: Reader, arc: Arc): Reader
  {
    var weight := if arc.weight != ONE then (if r.weight == ONE then arc.weight else Times(r.weight, arc.weight))
                  else r.weight;
    if arc.olabel == SPACE then
      Reader(r.words + [OutWord(r.symbol, TimesOf(weight))], "", ONE, r.lastMissingTime || weight == ONE)
    else
      var symbol := if arc.olabel != EPSILON then r.symbol + [arc.olabel] else r.symbol;
      if r.lastMissingTime && weight != ONE && r.words != [] then
        var back := |r.words| - 1;
        Reader(r.words[back := r.words[back].(times := TimesOf(weight))], symbol, ONE, false)
      else Reader(r.words, symbol, weight, r.lastMissingTime)
  }

  function ReadUpTo(arcs: seq<Arc>, n: nat): Reader
    requires n <= |arcs|
  {
    if n == 0 then START else Read(ReadUpTo(arcs, n - 1), arcs[n - 1])
  }

  function Converted(arcs: seq<Arc>): seq<OutWord> { ReadUpTo(arcs, |arcs|).words }

  method Convert(fst: seq<Arc>) returns (words: seq<OutWord>)
    ensures words == Converted(fst)
  {
    words := [];
    var symbol: string := "";
    var currentWeight := ONE;
    var lastAliMissingTime := false;
    for n := 0 to |fst|
      invariant ReadUpTo(fst, n) == Reader(words, symbol, currentWeight, lastAliMissingTime)
      invariant lastAliMissingTime ==> words != []
    {
      var arc := fst[n];
      if arc.weight != ONE {
        if currentWeight == ONE {
          currentWeight := arc.weight;
        } else {
          currentWeight := Times(currentWeight, arc.weight);
        }
      }
      if arc.olabel == SPACE {
        words := words + [OutWord(symbol, TimesOf(currentWeight))];
        if currentWeight == ONE {
          lastAliMissingTime := true;
        }
        symbol := "";
        currentWeight := ONE;
      } else {
        if arc.olabel != EPSILON {
          symbol := symbol + [arc.olabel];
        }
        if lastAliMissingTime && currentWeight != ONE {
          words := words[|words| - 1 := words[|words| - 1].(times := TimesOf(currentWeight))];
          currentWeight := ONE;
          lastAliMissingTime := false;
        }
      }
    }
  }

  // ---------------------------------------------------------------- symbols

  function OutputByte(arc: Arc): string { if arc.olabel == EPSILON then "" else [arc.olabel] }

  /** The output bytes of the first n arcs. */
  function OutputUpTo(arcs: seq<Arc>, n: nat): string
    requires n <= |arcs|
  {
    if n == 0 then "" else OutputUpTo(arcs, n - 1) + OutputByte(arcs[n - 1])
  }

  /** The words' symbols, each followed by a space. */
  function Spelled(words: seq<OutWord>): string
  {
    if words == [] then "" else Spelled(words[..|words| - 1]) + words[|words| - 1].symbol + [SPACE]
  }

  lemma {:induction false} SpelledIgnoresTimes(words: seq<OutWord>, i: nat, t: WordTimes)
    requires i < |words|
    ensures Spelled(words[i := words[i].(times := t)]) == Spelled(words)
  {
    var n, w := |words| - 1, words[i := words[i].(times := t)];
    if i == n {
      assert w[..n] == words[..n];
    } else {
      assert w[..n] == words[..n][i := words[i].(times := t)];
      SpelledIgnoresTimes(words[..n], i, t);
    }
  }

  /** The symbol holds no space and no zero byte. */
  predicate Clean(symbol: string) { ' ' !in symbol && '\0' !in symbol }

  lemma ReadSpells(r: Reader, arc: Arc)
    ensures var s := Read(r, arc);
      Spelled(s.words) + s.symbol == Spelled(r.words) + r.symbol + OutputByte(arc)
  {
    var s := Read(r, arc);
    if arc.olabel == SPACE {
      assert s.words[..|r.words|] == r.words;
    } else if |s.words| > 0 && s.words != r.words {
      SpelledIgnoresTimes(r.words, |r.words| - 1, s.words[|r.words| - 1].times);
    }
  }

  ghost predicate AllClean(r: Reader)
  {
    Clean(r.symbol) && forall i :: 0 <= i < |r.words| ==> Clean(r.words[i].symbol)
  }

  lemma ReadStaysClean(r: Reader, arc: Arc)
    requires AllClean(r)
    ensures AllClean(Read(r, arc))
  {
  }

  /** The words spell exactly the output bytes up to the last space: what was read after it is the
      pending symbol, and neither that nor any word holds a space or an epsilon. */
  lemma {:induction false} WordsSpellOutput(arcs: seq<Arc>, n: nat)
    requires n <= |arcs|
    ensures var r := ReadUpTo(arcs, n);
      Spelled(r.words) + r.symbol == OutputUpTo(arcs, n) && AllClean(r)
  {
    if n > 0 {
      WordsSpellOutput(arcs, n - 1);
      var r, arc := ReadUpTo(arcs, n - 1), arcs[n - 1];
      ReadSpells(r, arc);
      ReadStaysClean(r, arc);
      assert OutputUpTo(arcs, n) == OutputUpTo(arcs, n - 1) + OutputByte(arc);
    }
  }

  // ---------------------------------------------------------------- times

  function WithWeight(ws: seq<Timing>, arc: Arc): seq<Timing>
  {
    if arc.weight == ONE then ws else ws + [arc.weight]
  }

  /** The interval weights of the first n arcs, in order. */
  function WeightsUpTo(arcs: seq<Arc>, n: nat): seq<Timing>
    requires n <= |arcs|
  {
    if n == 0 then [] else WithWeight(WeightsUpTo(arcs, n - 1), arcs[n - 1])
  }

  /** Where the reader stands with the current word's times: nothing seen yet, a weight seen, the
      word before still waiting for the next weight, or some word's times lost for good. */
  datatype Status = Fresh | Weighted | Waiting | Lost

  function Watch(s: Status, arc: Arc): Status
  {
    if arc.olabel == SPACE then
      match s
      case Fresh => if arc.weight == ONE then Waiting else Fresh
      case Weighted => Fresh
      case Waiting => Lost
      case Lost => Lost
    else if arc.weight == ONE then s
    else
      match s
      case Fresh => Weighted
      case Weighted => Weighted
      case Waiting => Fresh
      case Lost => Lost
  }

  function WatchUpTo(arcs: seq<Arc>, n: nat): Status
    requires n <= |arcs|
  {
    if n == 0 then Fresh else Watch(WatchUpTo(arcs, n - 1), arcs[n - 1])
  }

  /** Every word that ends has a weight, its own or, if it ends without one, the first to come before
      the next space.  A weight that a waiting word takes no longer counts for the word it stands in. */
  predicate Timely(arcs: seq<Arc>)
  {
    var s := WatchUpTo(arcs, |arcs|); s == Fresh || s == Weighted
  }

  /** How many weights have been read when each word among the first n arcs ends. */
  function EndsUpTo(arcs: seq<Arc>, n: nat): seq<nat>
    requires n <= |arcs|
  {
    if n == 0 then []
    else EndsUpTo(arcs, n - 1) + if arcs[n - 1].olabel == SPACE then [|WeightsUpTo(arcs, n)|] else []
  }

  ghost predicate ProperWeights(arcs: seq<Arc>)
  {
    forall i :: 0 <= i < |arcs| && arcs[i].weight != ONE ==> Proper(arcs[i].weight)
  }

  /** A stretch of consecutive weights, from the first index up to, not including, the second. */
  datatype Stretch = Stretch(from: nat, to: nat)

  /** Where stretch j has to begin for the stretches to follow each other from 0 on. */
  function EndBefore(stretches: seq<Stretch>, j: nat): nat
    requires j <= |stretches|
  {
    if j == 0 then 0 else stretches[j - 1].to
  }

  /** Consecutive non-empty stretches of the weights, from the first weight on; word j's times are
      the product of stretch j. */
  ghost predicate Timed(words: seq<OutWord>, ws: seq<Timing>, stretches: seq<Stretch>)
  {
    && |stretches| <= |words|
    && forall j :: 0 <= j < |stretches| ==>
         && EndBefore(stretches, j) == stretches[j].from < stretches[j].to <= |ws|
         && words[j].times == TimesOf(Span(ws, stretches[j].from, stretches[j].to))
  }

  /** Stretch j reaches to the weights read when word j ends, or one further when none has come since
      the word before: then word j waits for the next one. */
  ghost predicate Reaching(stretches: seq<Stretch>, ends: seq<nat>)
  {
    && |stretches| <= |ends|
    && forall j :: 0 <= j < |stretches| ==> stretches[j].to == Max(ends[j], stretches[j].from + 1)
  }

  /** The ends determine the stretches. */
  lemma {:induction false} ReachingDetermined(a: seq<Stretch>, b: seq<Stretch>, ends: seq<nat>, n: nat)
    requires Reaching(a, ends) && Reaching(b, ends) && n <= |a| && n <= |b|
    requires forall j :: 0 <= j < |a| ==> EndBefore(a, j) == a[j].from
    requires forall j :: 0 <= j < |b| ==> EndBefore(b, j) == b[j].from
    ensures forall j :: 0 <= j < n ==> a[j] == b[j]
  {
    if n > 0 {
      ReachingDetermined(a, b, ends, n - 1);
      assert EndBefore(a, n - 1) == EndBefore(b, n - 1);
      assert a[n - 1].from == b[n - 1].from && a[n - 1].to == b[n - 1].to;
    }
  }

  lemma {:induction false} SpanPrefix(ws: seq<Timing>, vs: seq<Timing>, a: nat, b: nat)
    requires ws <= vs && a <= b <= |ws|
    ensures Span(ws, a, b) == Span(vs, a, b)
    decreases b
  {
    if a < b { SpanPrefix(ws, vs, a, b - 1); }
  }

  lemma TimedMoreWeights(words: seq<OutWord>, ws: seq<Timing>, vs: seq<Timing>, stretches: seq<Stretch>)
    requires Timed(words, ws, stretches) && ws <= vs
    ensures Timed(words, vs, stretches)
  {
    forall j | 0 <= j < |stretches|
      ensures words[j].times == TimesOf(Span(vs, stretches[j].from, stretches[j].to))
    {
      SpanPrefix(ws, vs, stretches[j].from, stretches[j].to);
    }
  }

  /** The reader with the weights ws read, as long as no times are lost. */
  ghost predicate Aligned(r: Reader, ws: seq<Timing>, s: Status, stretches: seq<Stretch>)
  {
    && Timed(r.words, ws, stretches)
    && var last := EndBefore(stretches, |stretches|);
       && last <= |ws|
       && r.weight == Span(ws, last, |ws|)
       && match s
          case Fresh => last == |ws| && |stretches| == |r.words| && !r.lastMissingTime
          case Weighted => last < |ws| && |stretches| == |r.words| && !r.lastMissingTime
          case Waiting =>
            && last == |ws| && |stretches| + 1 == |r.words|
            && r.lastMissingTime && r.words[|stretches|].times == Undefined
          case Lost => false
  }

  ghost predicate AllProper(ws: seq<Timing>) { forall i :: 0 <= i < |ws| ==> Proper(ws[i]) }

  /** The weight gathered for the current word, the arc's own included. */
  lemma GatheredWeight(ws: seq<Timing>, last: nat, arc: Arc)
    requires last <= |ws| && AllProper(ws) && (arc.weight == ONE || Proper(arc.weight))
    ensures var vs, before := WithWeight(ws, arc), Span(ws, last, |ws|);
      var now := if arc.weight == ONE then before else if before == ONE then arc.weight else Times(before, arc.weight);
      && now == Span(vs, last, |vs|)
      && (now == ONE <==> last == |vs|)
  {
    var vs := WithWeight(ws, arc);
    SpanPrefix(ws, vs, last, |ws|);
    if last < |vs| { SpanIsHull(vs, last, |vs|); }
    SemiringLaws(ONE, arc.weight, ONE);
  }

  /** The next word takes the stretch of weights since the last one. */
  lemma TakeStretch(words: seq<OutWord>, ws: seq<Timing>, stretches: seq<Stretch>)
    requires |stretches| < |words| && Timed(words, ws, stretches)
    requires EndBefore(stretches, |stretches|) < |ws|
    requires words[|stretches|].times == TimesOf(Span(ws, EndBefore(stretches, |stretches|), |ws|))
    ensures Timed(words, ws, stretches + [Stretch(EndBefore(stretches, |stretches|), |ws|)])
  {
    var longer := stretches + [Stretch(EndBefore(stretches, |stretches|), |ws|)];
    var last := |stretches|;
    assert forall j :: 0 <= j < last ==> longer[j] == stretches[j];
    forall j | 0 <= j < |longer|
      ensures EndBefore(longer, j) == longer[j].from < longer[j].to <= |ws|
      ensures words[j].times == TimesOf(Span(ws, longer[j].from, longer[j].to))
    {
      assert EndBefore(longer, j) == EndBefore(stretches, j);
      if j == last { assert longer[j] == Stretch(EndBefore(stretches, last), |ws|); }
    }
  }

  /** Words after the timed ones do not matter. */
  lemma TimedLocal(words: seq<OutWord>, others: seq<OutWord>, ws: seq<Timing>, stretches: seq<Stretch>)
    requires Timed(words, ws, stretches) && |stretches| <= |others|
    requires forall j :: 0 <= j < |stretches| ==> others[j] == words[j]
    ensures Timed(others, ws, stretches)
  {
  }

  /** The stretches after an arc, up to which `total` weights have been read: if a word can take the
      weights since the last stretch and there are any, it does. */
  function Lengthened(stretches: seq<Stretch>, total: nat, taken: bool): seq<Stretch>
  {
    var last := EndBefore(stretches, |stretches|);
    if taken && last < total then stretches + [Stretch(last, total)] else stretches
  }

  /** A space ends the current word, which takes the weights since the last one or starts to wait. */
  lemma SpaceKeepsAligned(r: Reader, ws: seq<Timing>, s: Status, stretches: seq<Stretch>, arc: Arc)
    returns (longer: seq<Stretch>)
    requires AllProper(ws) && (arc.weight == ONE || Proper(arc.weight)) && arc.olabel == SPACE
    requires Aligned(r, ws, s, stretches) && (s == Fresh || s == Weighted)
    ensures Aligned(Read(r, arc), WithWeight(ws, arc), Watch(s, arc), longer)
    ensures longer == Lengthened(stretches, |WithWeight(ws, arc)|, true)
  {
    var vs, last, words := WithWeight(ws, arc), EndBefore(stretches, |stretches|), Read(r, arc).words;
    GatheredWeight(ws, last, arc);
    TimedMoreWeights(r.words, ws, vs, stretches);
    TimedLocal(r.words, words, vs, stretches);
    longer := stretches;
    if last < |vs| {
      TakeStretch(words, vs, stretches);
      longer := stretches + [Stretch(last, |vs|)];
    }
  }

  /** Inside a word a weight goes to the waiting word if there is one, else to the current word. */
  lemma LetterKeepsAligned(r: Reader, ws: seq<Timing>, s: Status, stretches: seq<Stretch>, arc: Arc)
    returns (longer: seq<Stretch>)
    requires AllProper(ws) && (arc.weight == ONE || Proper(arc.weight)) && arc.olabel != SPACE
    requires Aligned(r, ws, s, stretches)
    ensures Aligned(Read(r, arc), WithWeight(ws, arc), Watch(s, arc), longer)
    ensures longer == Lengthened(stretches, |WithWeight(ws, arc)|, s == Waiting)
  {
    var vs, last, words := WithWeight(ws, arc), EndBefore(stretches, |stretches|), Read(r, arc).words;
    GatheredWeight(ws, last, arc);
    TimedMoreWeights(r.words, ws, vs, stretches);
    TimedLocal(r.words, words, vs, stretches);
    longer := stretches;
    if s == Waiting && last < |vs| {
      TakeStretch(words, vs, stretches);
      longer := stretches + [Stretch(last, |vs|)];
    }
  }

  lemma ReadKeepsAligned(r: Reader, ws: seq<Timing>, s: Status, stretches: seq<Stretch>, arc: Arc)
    returns (longer: seq<Stretch>)
    requires AllProper(ws) && (arc.weight == ONE || Proper(arc.weight))
    requires Aligned(r, ws, s, stretches) && Watch(s, arc) != Lost
    ensures Aligned(Read(r, arc), WithWeight(ws, arc), Watch(s, arc), longer)
    ensures longer == Lengthened(stretches, |WithWeight(ws, arc)|, s == Waiting || arc.olabel == SPACE)
  {
    if arc.olabel == SPACE {
      longer := SpaceKeepsAligned(r, ws, s, stretches, arc);
    } else {
      longer := LetterKeepsAligned(r, ws, s, stretches, arc);
    }
  }

  lemma {:induction false} WeightsAreProper(arcs: seq<Arc>, n: nat)
    requires n <= |arcs| && ProperWeights(arcs)
    ensures AllProper(WeightsUpTo(arcs, n))
  {
    if n > 0 { WeightsAreProper(arcs, n - 1); }
  }

  /** The stretches so far against the ends so far: only a waiting word has an end and no stretch. */
  ghost predicate Matched(stretches: seq<Stretch>, ends: seq<nat>, total: nat, waiting: bool)
  {
    && Reaching(stretches, ends)
    && |ends| == |stretches| + (if waiting then 1 else 0)
    && (waiting ==> ends[|stretches|] == total)
  }

  /** One more arc, after which `more` weights have been read. */
  lemma LongerMatched(stretches: seq<Stretch>, ends: seq<nat>, total: nat, more: nat, waiting: bool, space: bool)
    requires Matched(stretches, ends, total, waiting) && total <= more <= total + 1 && !(waiting && space)
    requires var last := EndBefore(stretches, |stretches|); last <= total && (waiting ==> last == total)
    ensures var last := EndBefore(stretches, |stretches|);
      Matched(Lengthened(stretches, more, waiting || space), if space then ends + [more] else ends, more,
              if space then last == more else waiting && more == total)
  {
    var longer := Lengthened(stretches, more, waiting || space);
    var ends' := if space then ends + [more] else ends;
    forall j | 0 <= j < |longer| ensures j < |ends'| && longer[j].to == Max(ends'[j], longer[j].from + 1) {
      if j < |stretches| {
        assert longer[j] == stretches[j] && ends'[j] == ends[j];
      }
    }
  }

  /** The words' stretches of weights after n arcs. */
  function StretchesUpTo(arcs: seq<Arc>, n: nat): seq<Stretch>
    requires n <= |arcs|
  {
    if n == 0 then []
    else Lengthened(StretchesUpTo(arcs, n - 1), |WeightsUpTo(arcs, n)|,
                    WatchUpTo(arcs, n - 1) == Waiting || arcs[n - 1].olabel == SPACE)
  }

  lemma {:induction false} ReaderAligned(arcs: seq<Arc>, n: nat)
    requires n <= |arcs| && ProperWeights(arcs) && WatchUpTo(arcs, n) != Lost
    ensures AllProper(WeightsUpTo(arcs, n))
    ensures Aligned(ReadUpTo(arcs, n), WeightsUpTo(arcs, n), WatchUpTo(arcs, n), StretchesUpTo(arcs, n))
  {
    WeightsAreProper(arcs, n);
    if n > 0 {
      ReaderAligned(arcs, n - 1);
      var longer := ReadKeepsAligned(ReadUpTo(arcs, n - 1), WeightsUpTo(arcs, n - 1), WatchUpTo(arcs, n - 1),
                                     StretchesUpTo(arcs, n - 1), arcs[n - 1]);
      assert WeightsUpTo(arcs, n) == WithWeight(WeightsUpTo(arcs, n - 1), arcs[n - 1]);
    }
  }

  /** Where the scan stands, seen from the stretches. */
  lemma StretchesStand(arcs: seq<Arc>, n: nat)
    requires n <= |arcs| && ProperWeights(arcs) && WatchUpTo(arcs, n) != Lost
    ensures var last, total := EndBefore(StretchesUpTo(arcs, n), |StretchesUpTo(arcs, n)|), |WeightsUpTo(arcs, n)|;
      last <= total && (WatchUpTo(arcs, n) == Weighted <==> last < total)
  {
    ReaderAligned(arcs, n);
  }

  lemma {:induction false} StretchesMatched(arcs: seq<Arc>, n: nat)
    requires n <= |arcs| && ProperWeights(arcs) && WatchUpTo(arcs, n) != Lost
    ensures Matched(StretchesUpTo(arcs, n), EndsUpTo(arcs, n), |WeightsUpTo(arcs, n)|, WatchUpTo(arcs, n) == Waiting)
  {
    if n > 0 {
      StretchesMatched(arcs, n - 1);
      StretchesStand(arcs, n - 1);
      LongerMatched(StretchesUpTo(arcs, n - 1), EndsUpTo(arcs, n - 1), |WeightsUpTo(arcs, n - 1)|,
                    |WeightsUpTo(arcs, n)|, WatchUpTo(arcs, n - 1) == Waiting, arcs[n - 1].olabel == SPACE);
    }
  }

  /** Once lost, some word that is not the last stays without times. */
  ghost predicate HasLostWord(words: seq<OutWord>)
  {
    exists j :: 0 <= j < |words| - 1 && words[j].times == Undefined
  }

  lemma {:induction false} LostStaysLost(arcs: seq<Arc>, n: nat)
    requires n <= |arcs| && ProperWeights(arcs) && WatchUpTo(arcs, n) == Lost
    ensures HasLostWord(ReadUpTo(arcs, n).words)
  {
    var r, s := ReadUpTo(arcs, n - 1), ReadUpTo(arcs, n);
    if WatchUpTo(arcs, n - 1) == Lost {
      LostStaysLost(arcs, n - 1);
      var j :| 0 <= j < |r.words| - 1 && r.words[j].times == Undefined;
      assert s.words[j].times == Undefined;
    } else {
      ReaderAligned(arcs, n - 1);
      var stretches := StretchesUpTo(arcs, n - 1);
      assert s.words[|stretches|].times == Undefined;
    }
  }

  /** Convert's times.  No word is left without times exactly when the weights come in time; then the
      words' times are the products of consecutive, non-empty stretches of the interval weights, in
      order from the first weight on: word j takes the weights that come while it is read, its space
      included, or the next one when there is none, and only weights after the last space are left
      over. */
  lemma ConvertTimes(arcs: seq<Arc>) returns (stretches: seq<Stretch>)
    requires ProperWeights(arcs)
    ensures (forall j :: 0 <= j < |Converted(arcs)| ==> Converted(arcs)[j].times.Interval?) <==> Timely(arcs)
    ensures Timely(arcs) ==>
      var ws := WeightsUpTo(arcs, |arcs|);
      && |stretches| == |Converted(arcs)|
      && Timed(Converted(arcs), ws, stretches)
      && |EndsUpTo(arcs, |arcs|)| == |stretches| && Reaching(stretches, EndsUpTo(arcs, |arcs|))
      && (WatchUpTo(arcs, |arcs|) == Fresh ==> EndBefore(stretches, |stretches|) == |ws|)
  {
    var s, words, ws := WatchUpTo(arcs, |arcs|), Converted(arcs), WeightsUpTo(arcs, |arcs|);
    if s == Lost {
      LostStaysLost(arcs, |arcs|);
      stretches := [];
    } else {
      stretches := StretchesUpTo(arcs, |arcs|);
      ReaderAligned(arcs, |arcs|);
      StretchesMatched(arcs, |arcs|);
      forall j | 0 <= j < |stretches| ensures words[j].times.Interval? {
        SpanIsHull(ws, stretches[j].from, stretches[j].to);
      }
    }
  }

  /** The arc at p or one before it in the same word carries a weight. */
  ghost predicate CarriesWeight(arcs: seq<Arc>, p: int)
    requires p < |arcs|
  {
    exists q :: 0 <= q <= p && arcs[q].weight != ONE && forall k :: q <= k < p ==> arcs[k].olabel != SPACE
  }

  /** Every word that ends among the first n arcs has a weight of its own. */
  ghost predicate OwnWeights(arcs: seq<Arc>, n: nat)
    requires n <= |arcs|
  {
    forall p :: 0 <= p < n && arcs[p].olabel == SPACE ==> CarriesWeight(arcs, p)
  }

  lemma {:induction false} WeightIsNoticed(arcs: seq<Arc>, q: nat, n: nat)
    requires q < n <= |arcs| && arcs[q].weight != ONE
    requires forall k :: q <= k < n ==> arcs[k].olabel != SPACE
    requires WatchUpTo(arcs, q) == Fresh || WatchUpTo(arcs, q) == Weighted
    ensures WatchUpTo(arcs, n) == Weighted
  {
    if q < n - 1 { WeightIsNoticed(arcs, q, n - 1); }
  }

  /** The ordinary case: if every word has a weight of its own, the weights come in time. */
  lemma {:induction false} OwnWeightsAreTimely(arcs: seq<Arc>, n: nat)
    requires n <= |arcs| && OwnWeights(arcs, n)
    ensures WatchUpTo(arcs, n) == Fresh || WatchUpTo(arcs, n) == Weighted
  {
    if n > 0 {
      OwnWeightsAreTimely(arcs, n - 1);
      if arcs[n - 1].olabel == SPACE && arcs[n - 1].weight == ONE {
        var q :| 0 <= q <= n - 1 && arcs[q].weight != ONE && forall k :: q <= k < n - 1 ==> arcs[k].olabel != SPACE;
        OwnWeightsAreTimely(arcs, q);
        WeightIsNoticed(arcs, q, n - 1);
      }
    }
  }

  /** The count at the end before end j. */
  function Earlier(ends: seq<nat>, j: nat): nat
    requires j <= |ends|
  {
    if j == 0 then 0 else ends[j - 1]
  }

  /** At every end more weights have been read than at the end before. */
  predicate Growing(ends: seq<nat>) { forall j :: 0 <= j < |ends| ==> Earlier(ends, j) < ends[j] }

  lemma GrowingPrefix(longer: seq<nat>, ends: seq<nat>, total: nat)
    requires longer == ends + [total] && Growing(longer)
    ensures Growing(ends) && Earlier(ends, |ends|) < total
  {
    assert Earlier(longer, |ends|) < longer[|ends|];
    forall j | 0 <= j < |ends| ensures Earlier(ends, j) < ends[j] {
      assert Earlier(longer, j) < longer[j];
    }
  }

  /** The same condition by counting: weights that grow from word to word come in time. */
  lemma {:induction false} GrowingIsTimely(arcs: seq<Arc>, n: nat)
    requires n <= |arcs| && Growing(EndsUpTo(arcs, n))
    ensures var ends, total := EndsUpTo(arcs, n), |WeightsUpTo(arcs, n)|;
      && Earlier(ends, |ends|) <= total
      && WatchUpTo(arcs, n) == if Earlier(ends, |ends|) < total then Weighted else Fresh
  {
    if n > 0 {
      var before, total := EndsUpTo(arcs, n - 1), |WeightsUpTo(arcs, n)|;
      if arcs[n - 1].olabel == SPACE {
        GrowingPrefix(EndsUpTo(arcs, n), before, total);
      } else {
        assert EndsUpTo(arcs, n) == before;
      }
      GrowingIsTimely(arcs, n - 1);
    }
  }

  lemma {:induction false} GrowingReaches(stretches: seq<Stretch>, ends: seq<nat>, n: nat)
    requires Reaching(stretches, ends) && Growing(ends) && n <= |stretches|
    requires forall j :: 0 <= j < |stretches| ==> EndBefore(stretches, j) == stretches[j].from
    ensures forall j :: 0 <= j < n ==> stretches[j].to == ends[j]
  {
    if n > 0 {
      GrowingReaches(stretches, ends, n - 1);
      assert EndBefore(stretches, n - 1) == stretches[n - 1].from;
      assert Earlier(ends, n - 1) < ends[n - 1];
    }
  }

  /** Then, and only then, each word takes exactly the weights that come while it is read. */
  lemma GrowingMeansOwn(stretches: seq<Stretch>, ends: seq<nat>)
    requires Reaching(stretches, ends) && |stretches| == |ends|
    requires forall j :: 0 <= j < |stretches| ==> EndBefore(stretches, j) == stretches[j].from
    ensures Growing(ends) <==> forall j :: 0 <= j < |stretches| ==> stretches[j].to == ends[j]
  {
    if Growing(ends) {
      GrowingReaches(stretches, ends, |stretches|);
    }
  }

  /** Without a weight of its own or in time the source's look-ahead goes wrong: here the second
      word's time is on its space, so the first word keeps no time and the third word's time, when
      it comes, replaces the second's. */
  lemma LateWeightIsLost()
    ensures var t1, t2 := Timing(Finite(0), Finite(10)), Timing(Finite(20), Finite(30));
      var arcs := [Arc('a', 'a', ONE), Arc(EPSILON, SPACE, ONE), Arc('b', 'b', ONE), Arc(SPACE, SPACE, t1),
                   Arc(SPACE, 'c', t2), Arc(EPSILON, SPACE, ONE)];
      Converted(arcs) == [OutWord("a", Undefined), OutWord("b", Interval(20, 10)), OutWord("c", Undefined)]
  {
    var t1, t2 := Timing(Finite(0), Finite(10)), Timing(Finite(20), Finite(30));
    var arcs := [Arc('a', 'a', ONE), Arc(EPSILON, SPACE, ONE), Arc('b', 'b', ONE), Arc(SPACE, SPACE, t1),
                 Arc(SPACE, 'c', t2), Arc(EPSILON, SPACE, ONE)];
    var a := OutWord("a", Undefined);
    assert ReadUpTo(arcs, 1) == Reader([], "a", ONE, false);
    assert ReadUpTo(arcs, 2) == Reader([a], "", ONE, true);
    assert ReadUpTo(arcs, 3) == Reader([a], "b", ONE, true);
    assert ReadUpTo(arcs, 4) == Reader([a, OutWord("b", Interval(0, 10))], "", ONE, true);
    assert ReadUpTo(arcs, 5) == Reader([a, OutWord("b", Interval(20, 10))], "c", ONE, false);
  }

  // ---------------------------------------------------------------- round trip

  function AsOutWord(w: AlignedWord): OutWord { OutWord(w.symbol, Interval(w.startTime, w.duration)) }

  function AsOutWords(words: seq<AlignedWord>, n: nat): (r: seq<OutWord>)
    requires n <= |words|
    ensures |r| == n && forall i :: 0 <= i < n ==> r[i] == AsOutWord(words[i])
  {
    if n == 0 then [] else AsOutWords(words, n - 1) + [AsOutWord(words[n - 1])]
  }

  /** Reading an appended piece starts where reading the first part stopped. */
  function ReadMore(r: Reader, arcs: seq<Arc>, n: nat): Reader
    requires n <= |arcs|
  {
    if n == 0 then r else Read(ReadMore(r, arcs, n - 1), arcs[n - 1])
  }

  lemma {:induction false} ReadPrefix(a: seq<Arc>, b: seq<Arc>, n: nat)
    requires n <= |a|
    ensures ReadUpTo(a + b, n) == ReadUpTo(a, n)
  {
    if n > 0 { ReadPrefix(a, b, n - 1); }
  }

  lemma {:induction false} ReadConcat(a: seq<Arc>, b: seq<Arc>, n: nat)
    requires n <= |b|
    ensures ReadUpTo(a + b, |a| + n) == ReadMore(ReadUpTo(a, |a|), b, n)
  {
    if n == 0 {
      ReadPrefix(a, b, |a|);
    } else {
      ReadConcat(a, b, n - 1);
    }
  }

  lemma {:induction false} LetterArcAt(symbol: string, n: nat, i: nat)
    requires i < n <= |symbol|
    ensures LetterArcs(symbol, n)[i] == Arc(symbol[i], symbol[i], ONE)
  {
    if i < n - 1 { LetterArcAt(symbol, n - 1, i); }
  }

  lemma {:induction false} ReadLetters(r: Reader, w: AlignedWord, n: nat)
    requires n <= |w.symbol| && Clean(w.symbol) && r.symbol == "" && r.weight == ONE && !r.lastMissingTime
    ensures ReadMore(r, WordArcs(w), n) == r.(symbol := w.symbol[..n])
  {
    if n > 0 {
      ReadLetters(r, w, n - 1);
      LetterArcAt(w.symbol, |w.symbol|, n - 1);
      assert w.symbol[n - 1] in w.symbol;
      assert w.symbol[..n] == w.symbol[..n - 1] + [w.symbol[n - 1]];
    }
  }

  lemma ReadWord(r: Reader, w: AlignedWord)
    requires Clean(w.symbol) && r.symbol == "" && r.weight == ONE && !r.lastMissingTime
    ensures ReadMore(r, WordArcs(w), |WordArcs(w)|) == r.(words := r.words + [AsOutWord(w)])
  {
    var n := |w.symbol|;
    ReadLetters(r, w, n);
    assert w.symbol[..n] == w.symbol;
  }

  lemma OneMoreWord(before: seq<Arc>, w: AlignedWord)
    requires Clean(w.symbol)
    requires var r := ReadUpTo(before, |before|); r.symbol == "" && r.weight == ONE && !r.lastMissingTime
    ensures var r, all := ReadUpTo(before, |before|), before + WordArcs(w);
      ReadUpTo(all, |all|) == r.(words := r.words + [AsOutWord(w)])
  {
    ReadConcat(before, WordArcs(w), |WordArcs(w)|);
    ReadWord(ReadUpTo(before, |before|), w);
  }

  lemma {:induction false} CleanWordsComeBack(words: seq<AlignedWord>, n: nat)
    requires n <= |words| && forall i :: 0 <= i < n ==> Clean(words[i].symbol)
    ensures ReadUpTo(ByteArcs(words, n), |ByteArcs(words, n)|) == Reader(AsOutWords(words, n), "", ONE, false)
  {
    if n > 0 {
      CleanWordsComeBack(words, n - 1);
      OneMoreWord(ByteArcs(words, n - 1), words[n - 1]);
    }
  }

  /** Converting words to a timed byte string and back is the identity exactly when no word holds a
      space or a zero byte. */
  lemma ByteFstRoundTrip(words: seq<AlignedWord>)
    ensures Converted(ByteArcs(words, |words|)) == AsOutWords(words, |words|)
      <==> forall i :: 0 <= i < |words| ==> Clean(words[i].symbol)
  {
    var arcs, n := ByteArcs(words, |words|), |words|;
    if forall i :: 0 <= i < n ==> Clean(words[i].symbol) {
      CleanWordsComeBack(words, n);
    }
    if Converted(arcs) == AsOutWords(words, n) {
      WordsSpellOutput(arcs, |arcs|);
      forall i | 0 <= i < n ensures Clean(words[i].symbol) {
        assert Converted(arcs)[i] == AsOutWord(words[i]);
      }
    }
  }
}
