/** Streaming recognition: RunStreamingProcessor of src/api/services.cc.

  The loop is given twice: as a transition system whose steps are the source's loop turns, on which
  the properties are proved, and as a method with the source's nested loops that runs it.  What the
  libraries and the peer answer is given by oracles: each question is asked at most once for a
  request, a segment or a write, so functions of those numbers cover every behaviour. */
module Streaming {
  import opened Alignment

  datatype Config = Config(sampleRate: nat, interimResults: bool, singleUtterance: bool,
                           maxAlternatives: nat, enableWordTimeOffsets: bool)

  /** What GetResults delivers; NoHypothesis when it returns false. */
  datatype Hypothesis = NoHypothesis | Hypothesis(bestAligned: seq<AlignedWord>, transcripts: seq<string>)

  datatype Oracles = Oracles(
    hasSpeech: nat -> bool,                  // voice activity in request i
    hasEndpoint: nat -> bool,                // endpoint after decoding request i
    framesDecoded: nat -> int,               // frames decoded after request i
    clock: nat -> real,                      // milliseconds, read while handling request i
    bestHypothesis: nat -> string,           // best hypothesis after request i
    interimResults: nat -> Hypothesis,       // GetResults for one alternative after request i
    segmentClock: nat -> real,               // milliseconds, read when the segment starting at i opens
    finalFrames: nat -> int,                 // frames decoded in the segment that started at i
    finalResults: (nat, nat) -> Hypothesis,  // GetResults for n alternatives, same segment
    writeOk: nat -> bool)                    // success of write k

  datatype Alternative = Alternative(transcript: string, words: seq<WordInfo>)

  /** NoResults is a response without results. */
  datatype Response =
    | Results(isFinal: bool, alternatives: seq<Alternative>)
    | NoResults
    | EndOfSingleUtterance

  datatype Status = OK | CANCELLED | INTERNAL

  predicate Valid(config: Config) { config.sampleRate > 0 }

  /** The stream of audio is over. */
  predicate IsEnd(request: string) { request == "" || request == "END" }

  /** 16-bit samples in a request. */
  function Samples(request: string): nat { |request| / 2 }

  function ChunkTime(config: Config, request: string): nat
    requires Valid(config)
  {
    1000 * Samples(request) / config.sampleRate
  }

  // ---------------------------------------------------------------- building a response

  function Shift(w: AlignedWord, offset: int): AlignedWord { w.(startTime := w.startTime + offset) }

  function Plain(transcripts: seq<string>): (r: seq<Alternative>)
    ensures |r| == |transcripts|
  {
    seq(|transcripts|, i requires 0 <= i < |transcripts| => Alternative(transcripts[i], []))
  }

  function ShiftedWords(words: seq<AlignedWord>, offset: int): (r: seq<WordInfo>)
    ensures |r| == |words|
  {
    seq(|words|, i requires 0 <= i < |words| => Convert(Shift(words[i], offset)))
  }

  /** The response for a hypothesis that has a transcript. */
  function ResponseFor(config: Config, h: Hypothesis, isFinal: bool, offset: int): Response
    requires h.Hypothesis? ==> h.transcripts != []
  {
    if h.NoHypothesis? then NoResults
    else if config.enableWordTimeOffsets then
      Results(isFinal, [Alternative(h.transcripts[0], ShiftedWords(h.bestAligned, offset))] + Plain(h.transcripts[1..]))
    else Results(isFinal, Plain(h.transcripts))
  }

  /** add_results; the status is INTERNAL when there is a hypothesis without a transcript. */
  method AddResults(config: Config, h: Hypothesis, isFinal: bool, offset: int)
    returns (status: Status, response: Response)
    ensures status == if h.Hypothesis? && h.transcripts == [] then INTERNAL else OK
    ensures status == OK ==> response == ResponseFor(config, h, isFinal, offset)
  {
    response := NoResults;
    status := OK;
    if h.Hypothesis? {
      if h.transcripts == [] {
        return INTERNAL, response;
      }
      var alternatives: seq<Alternative> := [];
      var from := 0;
      if config.enableWordTimeOffsets {
        var words: seq<WordInfo> := [];
        for i := 0 to |h.bestAligned|
          invariant |words| == i
          invariant forall k :: 0 <= k < i ==> words[k] == Convert(Shift(h.bestAligned[k], offset))
        {
          var ali := h.bestAligned[i].(startTime := h.bestAligned[i].startTime + offset);
          words := words + [Convert(ali)];
        }
        assert words == ShiftedWords(h.bestAligned, offset);
        alternatives := [Alternative(h.transcripts[0], words)];
        from := 1;
      }
      ghost var first := alternatives;
      for i := from to |h.transcripts|
        invariant alternatives == first + Plain(h.transcripts[from..i])
      {
        assert h.transcripts[from..i + 1] == h.transcripts[from..i] + [h.transcripts[i]];
        alternatives := alternatives + [Alternative(h.transcripts[i], [])];
      }
      assert h.transcripts[0..] == h.transcripts;
      response := Results(isFinal, alternatives);
    }
  }

  // ---------------------------------------------------------------- the transition system

  /** What became of a request's audio. */
  datatype Fate = Skipped | Decoded

  /** A closed segment: it began at request `begin`, skipped up to `first`, decoded up to `end`. */
  datatype Segment = Segment(begin: nat, first: nat, end: nat)

  /** A write, with the number of its segment, that segment's first decoded request, and the request
      (for an interim result) or the segment's first request (else) its content was asked for. */
  datatype Write = Write(response: Response, segment: nat, first: nat, at: nat)

  /** Inside the inner loop, after it with or without more data to come, or returned. */
  datatype Phase = Inner | Closing(moreData: bool) | Done(status: Status)

  /** The audio side of the loop: requests read, the source's four counters, where the current
      segment began and where its decoding began (so far), and what became of each request. */
  datatype Audio = Audio(
    next: nat, processedTime: int, segmentTime: int, vadOffset: int, speechStarted: bool,
    begin: nat, first: nat, fates: seq<Fate>, segments: seq<Segment>)

  datatype Machine = Machine(
    phase: Phase, audio: Audio, lastTranscript: string, lastInterimTime: real, writes: seq<Write>)

  /** At the top of the outer loop: a segment opens at request `next`. */
  function Opened(o: Oracles, next: nat, processedTime: int, fates: seq<Fate>, segments: seq<Segment>,
                  writes: seq<Write>): Machine
  {
    var audio := Audio(next, processedTime, 0, 0, false, next, next, fates, segments);
    Machine(Inner, audio, "", o.segmentClock(next), writes)
  }

  function Init(o: Oracles): Machine { Opened(o, 0, 0, [], [], []) }

  /** Takes in a request without speech so far. */
  function Skip(a: Audio, time: int): Audio
  {
    a.(next := a.next + 1, segmentTime := a.segmentTime + time, vadOffset := a.vadOffset + time,
       first := a.next + 1, fates := a.fates + [Skipped])
  }

  /** Takes in a request with or after speech. */
  function Decode(a: Audio, time: int): Audio
  {
    a.(next := a.next + 1, segmentTime := a.segmentTime + time, speechStarted := true, fates := a.fates + [Decoded])
  }

  /** Ends the current segment; the next one starts with fresh counters. */
  function CloseSegment(a: Audio): Audio
  {
    Audio(a.next, a.processedTime + a.segmentTime, 0, 0, false, a.next, a.next, a.fates,
          a.segments + [Segment(a.begin, a.first, a.next)])
  }

  function Offset(a: Audio): int { a.vadOffset + a.processedTime }

  /** Appends a write; the machine returns CANCELLED when it fails. */
  function WriteTo(o: Oracles, m: Machine, r: Response, at: nat): Machine
  {
    m.(writes := m.writes + [Write(r, |m.audio.segments|, m.audio.first, at)],
       phase := if o.writeOk(|m.writes|) then m.phase else Done(CANCELLED))
  }

  predicate HasNoTranscript(h: Hypothesis) { h.Hypothesis? && h.transcripts == [] }

  /** The interim result after decoding request i without an endpoint. */
  function Interim(config: Config, o: Oracles, m: Machine, i: nat): Machine
  {
    if config.interimResults && o.framesDecoded(i) > 0 && o.clock(i) - m.lastInterimTime > 350.0
       && o.bestHypothesis(i) != m.lastTranscript
    then
      var h := o.interimResults(i);
      var noted := m.(lastTranscript := o.bestHypothesis(i), lastInterimTime := o.clock(i));
      if HasNoTranscript(h) then m.(phase := Done(INTERNAL))
      else if h.NoHypothesis? then noted
      else WriteTo(o, noted, ResponseFor(config, h, false, Offset(m.audio)), i)
    else m
  }

  /** One turn of the inner loop. */
  function ReadStep(config: Config, o: Oracles, requests: seq<string>, m: Machine): Machine
    requires Valid(config)
  {
    var a, i := m.audio, m.audio.next;
    if i >= |requests| || IsEnd(requests[i]) then m.(phase := Closing(false))
    else
      var time := ChunkTime(config, requests[i]);
      if !a.speechStarted && !o.hasSpeech(i) then m.(audio := Skip(a, time))
      else
        var decoded := m.(audio := Decode(a, time));
        if o.hasEndpoint(i) then decoded.(phase := Closing(true)) else Interim(config, o, decoded, i)
  }

  /** The hypothesis of the final result. */
  function FinalHypothesis(config: Config, o: Oracles, begin: nat): Hypothesis
  {
    o.finalResults(begin, if config.maxAlternatives == 0 then 1 else config.maxAlternatives)
  }

  /** Closes the segment and goes on with the next one, or returns. */
  function Reopen(o: Oracles, m: Machine, more: bool): Machine
  {
    Machine(if more then Inner else Done(OK), CloseSegment(m.audio), "", o.segmentClock(m.audio.next), m.writes)
  }

  /** The end of a segment: its final result, then the next segment or the return. */
  function CloseStep(config: Config, o: Oracles, m: Machine): Machine
    requires m.phase.Closing?
  {
    if o.finalFrames(m.audio.begin) <= 0 then Reopen(o, m, m.phase.moreData)
    else
      var h := FinalHypothesis(config, o, m.audio.begin);
      if HasNoTranscript(h) then m.(phase := Done(INTERNAL))
      else
        var m1 := WriteTo(o, m, ResponseFor(config, h, true, Offset(m.audio)), m.audio.begin);
        if m1.phase.Done? then m1
        else if !config.singleUtterance then Reopen(o, m1, m.phase.moreData)
        else
          var m2 := WriteTo(o, m1, EndOfSingleUtterance, m.audio.begin);
          if m2.phase.Done? then m2 else Reopen(o, m2, false)
  }

  function Step(config: Config, o: Oracles, requests: seq<string>, m: Machine): Machine
    requires Valid(config) && !m.phase.Done?
  {
    if m.phase.Inner? then ReadStep(config, o, requests, m) else CloseStep(config, o, m)
  }

  /** Bounds the steps to come: three for each request unread, and those of the current phase. */
  function Measure(requests: seq<string>, m: Machine): int
  {
    3 * (|requests| - m.audio.next)
    + (if m.phase.Inner? then 1 else if m.phase == Closing(true) then 2 else 0)
  }

  lemma StepDecreases(config: Config, o: Oracles, requests: seq<string>, m: Machine)
    requires Valid(config) && !m.phase.Done? && m.audio.next <= |requests|
    ensures var m' := Step(config, o, requests, m);
      m'.audio.next <= |requests| && (m'.phase.Done? || Measure(requests, m') < Measure(requests, m))
  {
  }

  /** The whole run.  It ends for every finite list of requests. */
  function Run(config: Config, o: Oracles, requests: seq<string>, m: Machine): (r: Machine)
    requires Valid(config) && m.audio.next <= |requests|
    ensures r.phase.Done?
    decreases if m.phase.Done? then 0 else 1, Measure(requests, m)
  {
    if m.phase.Done? then m
    else
      StepDecreases(config, o, requests, m);
      Run(config, o, requests, Step(config, o, requests, m))
  }

  // ---------------------------------------------------------------- audio: skipped, decoded, timed

  /** Milliseconds the source counts for the first n requests. */
  function Elapsed(config: Config, requests: seq<string>, n: nat): nat
    requires Valid(config) && n <= |requests|
  {
    if n == 0 then 0 else Elapsed(config, requests, n - 1) + ChunkTime(config, requests[n - 1])
  }

  ghost predicate Shape(fates: seq<Fate>, s: Segment)
  {
    && s.begin <= s.first <= s.end <= |fates|
    && (forall i :: s.begin <= i < s.first ==> fates[i] == Skipped)
    && (forall i :: s.first <= i < s.end ==> fates[i] == Decoded)
  }

  /** Where the first n segments end. */
  function EndOf(segments: seq<Segment>, n: nat): nat
    requires n <= |segments|
  {
    if n == 0 then 0 else segments[n - 1].end
  }

  /** The first n segments follow each other from the first request on, each a skipped prefix and
      then decoded requests. */
  ghost predicate Partition(fates: seq<Fate>, segments: seq<Segment>, n: nat)
    requires n <= |segments|
  {
    n == 0 || (Partition(fates, segments, n - 1)
               && EndOf(segments, n - 1) == segments[n - 1].begin && Shape(fates, segments[n - 1]))
  }

  ghost predicate TimesInv(config: Config, requests: seq<string>, a: Audio)
    requires Valid(config)
  {
    && a.begin <= a.first <= a.next <= |requests|
    && (!a.speechStarted ==> a.first == a.next)
    && a.processedTime == Elapsed(config, requests, a.begin)
    && a.processedTime + a.segmentTime == Elapsed(config, requests, a.next)
    && Offset(a) == Elapsed(config, requests, a.first)
  }

  ghost predicate PartitionInv(a: Audio)
  {
    && |a.fates| == a.next
    && Partition(a.fates, a.segments, |a.segments|)
    && EndOf(a.segments, |a.segments|) == a.begin
    && Shape(a.fates, Segment(a.begin, a.first, a.next))
    && (!a.speechStarted ==> a.first == a.next)
  }

  ghost predicate NoEndRead(requests: seq<string>, a: Audio)
  {
    a.next <= |requests| && forall i :: 0 <= i < a.next ==> !IsEnd(requests[i])
  }

  ghost predicate AudioInv(config: Config, requests: seq<string>, a: Audio)
    requires Valid(config)
  {
    PartitionInv(a) && TimesInv(config, requests, a) && NoEndRead(requests, a)
  }

  lemma {:induction false} PartitionGrows(fates: seq<Fate>, moreFates: seq<Fate>, segments: seq<Segment>,
                                          more: seq<Segment>, n: nat)
    requires n <= |segments| && Partition(fates, segments, n) && fates <= moreFates && segments <= more
    ensures Partition(moreFates, more, n)
  {
    if n > 0 { PartitionGrows(fates, moreFates, segments, more, n - 1); }
  }

  lemma SkipKeepsPartition(a: Audio, time: int)
    requires PartitionInv(a) && !a.speechStarted
    ensures PartitionInv(Skip(a, time))
  {
    PartitionGrows(a.fates, Skip(a, time).fates, a.segments, a.segments, |a.segments|);
  }

  lemma DecodeKeepsPartition(a: Audio, time: int)
    requires PartitionInv(a)
    ensures PartitionInv(Decode(a, time))
  {
    PartitionGrows(a.fates, Decode(a, time).fates, a.segments, a.segments, |a.segments|);
  }

  lemma CloseKeepsPartition(a: Audio)
    requires PartitionInv(a)
    ensures PartitionInv(CloseSegment(a))
  {
    PartitionGrows(a.fates, a.fates, a.segments, CloseSegment(a).segments, |a.segments|);
  }

  lemma SkipKeepsAudio(config: Config, requests: seq<string>, a: Audio)
    requires Valid(config) && AudioInv(config, requests, a) && !a.speechStarted
    requires a.next < |requests| && !IsEnd(requests[a.next])
    ensures AudioInv(config, requests, Skip(a, ChunkTime(config, requests[a.next])))
  {
    SkipKeepsPartition(a, ChunkTime(config, requests[a.next]));
  }

  lemma DecodeKeepsAudio(config: Config, requests: seq<string>, a: Audio)
    requires Valid(config) && AudioInv(config, requests, a)
    requires a.next < |requests| && !IsEnd(requests[a.next])
    ensures AudioInv(config, requests, Decode(a, ChunkTime(config, requests[a.next])))
  {
    DecodeKeepsPartition(a, ChunkTime(config, requests[a.next]));
  }

  lemma CloseKeepsAudio(config: Config, requests: seq<string>, a: Audio)
    requires Valid(config) && AudioInv(config, requests, a)
    ensures AudioInv(config, requests, CloseSegment(a))
  {
    CloseKeepsPartition(a);
  }

  /** Every step keeps the account of the audio. */
  lemma StepKeepsAudio(config: Config, o: Oracles, requests: seq<string>, m: Machine)
    requires Valid(config) && !m.phase.Done? && AudioInv(config, requests, m.audio)
    ensures AudioInv(config, requests, Step(config, o, requests, m).audio)
  {
    var a := m.audio;
    if m.phase.Closing? {
      CloseKeepsAudio(config, requests, a);
    } else if a.next < |requests| && !IsEnd(requests[a.next]) {
      if !a.speechStarted && !o.hasSpeech(a.next) {
        SkipKeepsAudio(config, requests, a);
      } else {
        DecodeKeepsAudio(config, requests, a);
      }
    }
  }

  // ---------------------------------------------------------------- the writes

  predicate IsInterim(r: Response) { r.Results? && !r.isFinal }

  /** A final result; when GetResults fails the response written has no results. */
  predicate IsFinal(r: Response) { r.NoResults? || (r.Results? && r.isFinal) }

  /** What may follow an earlier write x: a later segment, or in the same segment anything after an
      interim result, and after a final result only the end event as the very next and last write;
      in single-utterance mode a final result is followed by nothing else in any segment. */
  predicate Follows(config: Config, x: Write, y: Write, nextAndLast: bool)
  {
    && x.segment <= y.segment
    && !x.response.EndOfSingleUtterance?
    && (IsFinal(x.response) && (x.segment == y.segment || config.singleUtterance) ==>
          y.response.EndOfSingleUtterance? && x.segment == y.segment && nextAndLast)
  }

  /** The order of the writes: by segment; in a segment interim results, if asked for, before at most
      one final result; the end event only in single-utterance mode, right after a final result and
      last of all; and nothing after a write that failed. */
  ghost predicate Grammar(config: Config, o: Oracles, ws: seq<Write>)
  {
    && (forall j, k :: 0 <= j < k < |ws| ==> Follows(config, ws[j], ws[k], k == j + 1 && k == |ws| - 1))
    && (forall k :: 0 <= k < |ws| && IsInterim(ws[k].response) ==> config.interimResults)
    && (forall k :: 0 <= k < |ws| && ws[k].response.EndOfSingleUtterance? ==>
          config.singleUtterance && k > 0 && IsFinal(ws[k - 1].response) && ws[k - 1].segment == ws[k].segment)
    && (forall k :: 0 <= k < |ws| - 1 ==> o.writeOk(k))
  }

  /** The writes while the loop is running. */
  ghost predicate WritesInv(config: Config, o: Oracles, m: Machine)
  {
    var ws := m.writes;
    && Grammar(config, o, ws)
    && (forall k :: 0 <= k < |ws| ==> o.writeOk(k))
    && (forall k :: 0 <= k < |ws| ==> ws[k].segment <= |m.audio.segments| && !ws[k].response.EndOfSingleUtterance?)
    && (forall k :: 0 <= k < |ws| && IsFinal(ws[k].response) ==>
          ws[k].segment < |m.audio.segments| && !config.singleUtterance)
  }

  lemma GrammarAppend(config: Config, o: Oracles, ws: seq<Write>, w: Write)
    requires Grammar(config, o, ws)
    requires forall k :: 0 <= k < |ws| ==> o.writeOk(k)
    requires forall k :: 0 <= k < |ws| ==> Follows(config, ws[k], w, k == |ws| - 1)
    requires forall k :: 0 <= k < |ws| ==> !ws[k].response.EndOfSingleUtterance?
    requires IsInterim(w.response) ==> config.interimResults
    requires w.response.EndOfSingleUtterance? ==>
      config.singleUtterance && ws != [] && IsFinal(ws[|ws| - 1].response) && ws[|ws| - 1].segment == w.segment
    ensures Grammar(config, o, ws + [w])
  {
    var all := ws + [w];
    forall j, k | 0 <= j < k < |all| ensures Follows(config, all[j], all[k], k == j + 1 && k == |all| - 1) {
      if k < |ws| { assert Follows(config, ws[j], ws[k], k == j + 1 && k == |ws| - 1); }
    }
  }

  /** The writes once the loop has returned. */
  ghost predicate WritesDone(config: Config, o: Oracles, m: Machine)
    requires m.phase.Done?
  {
    var ws := m.writes;
    && Grammar(config, o, ws)
    && (m.phase == Done(CANCELLED) <==> exists k :: 0 <= k < |ws| && !o.writeOk(k))
    && (m.phase == Done(OK) && config.singleUtterance ==>
          forall k :: 0 <= k < |ws| && IsFinal(ws[k].response) ==> ws[|ws| - 1].response.EndOfSingleUtterance?)
  }

  ghost predicate WritesOk(config: Config, o: Oracles, m: Machine)
  {
    if m.phase.Done? then WritesDone(config, o, m) else WritesInv(config, o, m)
  }

  lemma InterimKeepsWrites(config: Config, o: Oracles, m: Machine, i: nat)
    requires WritesInv(config, o, m) && m.phase == Inner
    ensures WritesOk(config, o, Interim(config, o, m, i))
  {
    var h, m' := o.interimResults(i), Interim(config, o, m, i);
    if m'.writes != m.writes {
      GrammarAppend(config, o, m.writes, m'.writes[|m.writes|]);
    }
  }

  /** Between a segment's final result and its end: the final result is the last write. */
  ghost predicate FinalWritten(config: Config, o: Oracles, m: Machine)
  {
    var ws := m.writes;
    && ws != [] && IsFinal(ws[|ws| - 1].response) && ws[|ws| - 1].segment == |m.audio.segments|
    && Grammar(config, o, ws)
    && (forall k :: 0 <= k < |ws| ==> o.writeOk(k))
    && (forall k :: 0 <= k < |ws| ==> ws[k].segment <= |m.audio.segments| && !ws[k].response.EndOfSingleUtterance?)
    && (forall k :: 0 <= k < |ws| - 1 && IsFinal(ws[k].response) ==>
          ws[k].segment < |m.audio.segments| && !config.singleUtterance)
  }

  lemma FinalWrite(config: Config, o: Oracles, m: Machine, r: Response)
    requires WritesInv(config, o, m) && m.phase.Closing? && IsFinal(r)
    ensures var m1 := WriteTo(o, m, r, m.audio.begin);
      if m1.phase.Done? then WritesDone(config, o, m1) else FinalWritten(config, o, m1)
  {
    var m1 := WriteTo(o, m, r, m.audio.begin);
    GrammarAppend(config, o, m.writes, m1.writes[|m.writes|]);
  }

  lemma EventWrite(config: Config, o: Oracles, m: Machine)
    requires FinalWritten(config, o, m) && m.phase.Closing? && config.singleUtterance
    ensures var m2 := WriteTo(o, m, EndOfSingleUtterance, m.audio.begin);
      WritesDone(config, o, if m2.phase.Done? then m2 else Reopen(o, m2, false))
  {
    var m2 := WriteTo(o, m, EndOfSingleUtterance, m.audio.begin);
    GrammarAppend(config, o, m.writes, m2.writes[|m.writes|]);
  }

  lemma CloseKeepsWrites(config: Config, o: Oracles, m: Machine)
    requires WritesInv(config, o, m) && m.phase.Closing?
    ensures WritesOk(config, o, CloseStep(config, o, m))
  {
    var a, h := m.audio, FinalHypothesis(config, o, m.audio.begin);
    if o.finalFrames(a.begin) > 0 && !HasNoTranscript(h) {
      var r := ResponseFor(config, h, true, Offset(a));
      FinalWrite(config, o, m, r);
      var m1 := WriteTo(o, m, r, a.begin);
      if !m1.phase.Done? && config.singleUtterance {
        EventWrite(config, o, m1);
      }
    }
  }

  lemma StepKeepsWrites(config: Config, o: Oracles, requests: seq<string>, m: Machine)
    requires Valid(config) && !m.phase.Done? && WritesInv(config, o, m)
    ensures WritesOk(config, o, Step(config, o, requests, m))
  {
    var a, i := m.audio, m.audio.next;
    if m.phase.Closing? {
      CloseKeepsWrites(config, o, m);
    } else if i < |requests| && !IsEnd(requests[i]) && (a.speechStarted || o.hasSpeech(i)) && !o.hasEndpoint(i) {
      InterimKeepsWrites(config, o, m.(audio := Decode(a, ChunkTime(config, requests[i]))), i);
    }
  }

  // ---------------------------------------------------------------- what the results say

  /** A final result is asked for as many alternatives as the client wants, and for one when it says 0. */
  function AlternativesAsked(config: Config): (n: nat)
    ensures n > 0 && (config.maxAlternatives > 0 ==> n == config.maxAlternatives)
    ensures config.maxAlternatives == 0 ==> n == 1
  {
    if config.maxAlternatives == 0 then 1 else config.maxAlternatives
  }

  /** The content of write w, from what the recogniser answered: its word times are shifted by the time
      of all audio read before the segment's first decoded request. */
  ghost predicate Content(config: Config, o: Oracles, requests: seq<string>, w: Write)
    requires Valid(config)
  {
    && w.first <= |requests|
    && (w.response.Results? ==>
          var h :=
            if w.response.isFinal then o.finalResults(w.at, AlternativesAsked(config)) else o.interimResults(w.at);
          && h.Hypothesis? && h.transcripts != []
          && w.response == ResponseFor(config, h, w.response.isFinal, Elapsed(config, requests, w.first)))
    && (w.response.NoResults? ==> o.finalResults(w.at, AlternativesAsked(config)).NoHypothesis?)
  }

  /** The write's segment is a closed one or the current one, and it carries that segment's marks. */
  ghost predicate Placed(a: Audio, w: Write)
  {
    var s := if w.segment < |a.segments| then a.segments[w.segment] else Segment(a.begin, a.first, a.next);
    && w.segment <= |a.segments|
    && w.first == s.first
    && (if IsInterim(w.response) then s.first <= w.at < s.end else w.at == s.begin)
  }

  ghost predicate ContentInv(config: Config, o: Oracles, requests: seq<string>, m: Machine)
    requires Valid(config)
  {
    && (forall k :: 0 <= k < |m.writes| ==> Content(config, o, requests, m.writes[k]))
    && (forall k :: 0 <= k < |m.writes| ==> Placed(m.audio, m.writes[k]))
    && (m.phase == Inner && !m.audio.speechStarted ==>
          forall k :: 0 <= k < |m.writes| ==> m.writes[k].segment < |m.audio.segments|)
  }

  lemma InterimKeepsContent(config: Config, o: Oracles, requests: seq<string>, m: Machine, i: nat)
    requires Valid(config) && ContentInv(config, o, requests, m) && TimesInv(config, requests, m.audio)
    requires m.audio.speechStarted && m.audio.first <= i < m.audio.next
    ensures ContentInv(config, o, requests, Interim(config, o, m, i))
  {
  }

  lemma ReopenKeepsContent(config: Config, o: Oracles, requests: seq<string>, m: Machine, more: bool)
    requires Valid(config) && ContentInv(config, o, requests, m)
    ensures ContentInv(config, o, requests, Reopen(o, m, more))
  {
    var m' := Reopen(o, m, more);
    forall k | 0 <= k < |m.writes| ensures Placed(m'.audio, m.writes[k]) {
      assert Placed(m.audio, m.writes[k]);
    }
  }

  lemma ClosingWriteKeepsContent(config: Config, o: Oracles, requests: seq<string>, m: Machine,
                                                    r: Response)
    requires Valid(config) && ContentInv(config, o, requests, m) && m.phase != Inner
    requires var w := Write(r, |m.audio.segments|, m.audio.first, m.audio.begin);
      Content(config, o, requests, w) && Placed(m.audio, w)
    ensures ContentInv(config, o, requests, WriteTo(o, m, r, m.audio.begin))
  {
  }

  lemma CloseKeepsContent(config: Config, o: Oracles, requests: seq<string>, m: Machine)
    requires Valid(config) && ContentInv(config, o, requests, m) && TimesInv(config, requests, m.audio)
    requires m.phase.Closing?
    ensures ContentInv(config, o, requests, CloseStep(config, o, m))
  {
    var a, h := m.audio, FinalHypothesis(config, o, m.audio.begin);
    ReopenKeepsContent(config, o, requests, m, m.phase.moreData);
    if o.finalFrames(a.begin) > 0 && !HasNoTranscript(h) {
      var r := ResponseFor(config, h, true, Offset(a));
      ClosingWriteKeepsContent(config, o, requests, m, r);
      var m1 := WriteTo(o, m, r, a.begin);
      if !m1.phase.Done? {
        ReopenKeepsContent(config, o, requests, m1, m.phase.moreData);
        ClosingWriteKeepsContent(config, o, requests, m1, EndOfSingleUtterance);
        ReopenKeepsContent(config, o, requests, WriteTo(o, m1, EndOfSingleUtterance, a.begin), false);
      }
    }
  }

  lemma DecodeKeepsContent(config: Config, o: Oracles, requests: seq<string>, m: Machine, time: int)
    requires Valid(config) && ContentInv(config, o, requests, m) && m.phase == Inner
    requires !m.audio.speechStarted ==> m.audio.first == m.audio.next
    ensures ContentInv(config, o, requests, m.(audio := Decode(m.audio, time)))
    ensures ContentInv(config, o, requests, m.(audio := Decode(m.audio, time), phase := Closing(true)))
    ensures !m.audio.speechStarted ==> ContentInv(config, o, requests, m.(audio := Skip(m.audio, time)))
  {
  }

  lemma StepKeepsContent(config: Config, o: Oracles, requests: seq<string>, m: Machine)
    requires Valid(config) && !m.phase.Done?
    requires AudioInv(config, requests, m.audio) && ContentInv(config, o, requests, m)
    ensures ContentInv(config, o, requests, Step(config, o, requests, m))
  {
    var a, i := m.audio, m.audio.next;
    if m.phase.Closing? {
      CloseKeepsContent(config, o, requests, m);
    } else if i < |requests| && !IsEnd(requests[i]) {
      var time := ChunkTime(config, requests[i]);
      DecodeKeepsContent(config, o, requests, m, time);
      if (a.speechStarted || o.hasSpeech(i)) && !o.hasEndpoint(i) {
        DecodeKeepsAudio(config, requests, a);
        InterimKeepsContent(config, o, requests, m.(audio := Decode(a, time)), i);
      }
    }
  }

  // ---------------------------------------------------------------- when results are sent

  function BeginOf(a: Audio, w: Write): nat
  {
    if w.segment < |a.segments| then a.segments[w.segment].begin else a.begin
  }

  /** An interim result is sent only with frames decoded, without an endpoint, and more than 350 ms
      after the segment opened. */
  ghost predicate Paced(o: Oracles, a: Audio, w: Write)
  {
    o.framesDecoded(w.at) > 0 && !o.hasEndpoint(w.at) && o.clock(w.at) > o.segmentClock(BeginOf(a, w)) + 350.0
  }

  /** Interim results of one segment are more than 350 ms apart. */
  ghost predicate Spaced(o: Oracles, ws: seq<Write>)
  {
    forall j, k | 0 <= j < k < |ws| && ws[j].segment == ws[k].segment ::
      IsInterim(ws[j].response) && IsInterim(ws[k].response) ==> o.clock(ws[k].at) > o.clock(ws[j].at) + 350.0
  }

  ghost predicate PaceInv(o: Oracles, m: Machine)
  {
    var ws := m.writes;
    && (forall k :: 0 <= k < |ws| ==> ws[k].segment <= |m.audio.segments|)
    && (forall k :: 0 <= k < |ws| && IsInterim(ws[k].response) ==> Paced(o, m.audio, ws[k]))
    && Spaced(o, ws)
    && (m.phase == Inner ==>
          && m.lastInterimTime >= o.segmentClock(m.audio.begin)
          && forall k :: 0 <= k < |ws| && IsInterim(ws[k].response) && ws[k].segment == |m.audio.segments| ==>
               o.clock(ws[k].at) <= m.lastInterimTime)
  }

  lemma InterimKeepsPace(config: Config, o: Oracles, m: Machine, i: nat)
    requires PaceInv(o, m) && m.phase == Inner && !o.hasEndpoint(i)
    ensures PaceInv(o, Interim(config, o, m, i))
  {
  }

  lemma ClosingWriteKeepsPace(o: Oracles, m: Machine, r: Response)
    requires PaceInv(o, m) && m.phase != Inner && !IsInterim(r)
    ensures PaceInv(o, WriteTo(o, m, r, m.audio.begin))
  {
  }

  lemma ReopenKeepsPace(o: Oracles, m: Machine, more: bool)
    requires PaceInv(o, m)
    ensures PaceInv(o, Reopen(o, m, more))
  {
    var m' := Reopen(o, m, more);
    forall k | 0 <= k < |m.writes| && IsInterim(m.writes[k].response) ensures Paced(o, m'.audio, m.writes[k]) {
      assert Paced(o, m.audio, m.writes[k]);
    }
  }

  lemma CloseKeepsPace(config: Config, o: Oracles, m: Machine)
    requires m.phase.Closing? && PaceInv(o, m)
    ensures PaceInv(o, CloseStep(config, o, m))
  {
    var a, h := m.audio, FinalHypothesis(config, o, m.audio.begin);
    ReopenKeepsPace(o, m, m.phase.moreData);
    if !HasNoTranscript(h) {
      var r := ResponseFor(config, h, true, Offset(a));
      var m1 := WriteTo(o, m, r, a.begin);
      ClosingWriteKeepsPace(o, m, r);
      ReopenKeepsPace(o, m1, m.phase.moreData);
      ClosingWriteKeepsPace(o, m1, EndOfSingleUtterance);
      ReopenKeepsPace(o, WriteTo(o, m1, EndOfSingleUtterance, a.begin), false);
    }
  }

  lemma DecodeKeepsPace(o: Oracles, m: Machine, time: int)
    requires m.phase == Inner && PaceInv(o, m)
    ensures PaceInv(o, m.(audio := Decode(m.audio, time)))
    ensures PaceInv(o, m.(audio := Decode(m.audio, time), phase := Closing(true)))
    ensures PaceInv(o, m.(audio := Skip(m.audio, time)))
  {
    forall k, b: Audio | 0 <= k < |m.writes| && b.segments == m.audio.segments && b.begin == m.audio.begin
      ensures BeginOf(b, m.writes[k]) == BeginOf(m.audio, m.writes[k]) { }
  }

  lemma StepKeepsPace(config: Config, o: Oracles, requests: seq<string>, m: Machine)
    requires Valid(config) && !m.phase.Done? && PaceInv(o, m)
    ensures PaceInv(o, Step(config, o, requests, m))
  {
    var a, i := m.audio, m.audio.next;
    if m.phase.Closing? {
      CloseKeepsPace(config, o, m);
    } else if i < |requests| && !IsEnd(requests[i]) {
      var time := ChunkTime(config, requests[i]);
      DecodeKeepsPace(o, m, time);
      if (a.speechStarted || o.hasSpeech(i)) && !o.hasEndpoint(i) {
        InterimKeepsPace(config, o, m.(audio := Decode(a, time)), i);
      }
    }
  }

  // ---------------------------------------------------------------- what interim results show

  /** At request i the source asks GetResults for a new interim result, having noted hypothesis `shown`
      at `time`, and there is nothing to show. */
  ghost predicate AskedInVain(o: Oracles, i: nat, shown: string, time: real)
  {
    && o.framesDecoded(i) > 0 && !o.hasEndpoint(i)
    && o.clock(i) > time + 350.0 && o.bestHypothesis(i) != shown
    && o.interimResults(i).NoHypothesis?
  }

  /** That happened at some request from `from` on, before `to`. */
  ghost predicate Unanswered(o: Oracles, from: nat, to: nat, shown: string, time: real)
  {
    exists i :: from <= i < to && AskedInVain(o, i, shown, time)
  }

  /** Write k shows another best hypothesis than the write before it in its segment, and the first one
      of a segment a non-empty one, unless in between the source asked GetResults in vain and noted
      the hypothesis it asked about. */
  ghost predicate Differs(o: Oracles, a: Audio, ws: seq<Write>, k: nat)
    requires k < |ws|
  {
    if k > 0 && ws[k - 1].segment == ws[k].segment then
      var at := ws[k - 1].at;
      var shown := o.bestHypothesis(at);
      o.bestHypothesis(ws[k].at) != shown || Unanswered(o, at + 1, ws[k].at, shown, o.clock(at))
    else
      o.bestHypothesis(ws[k].at) != ""
      || Unanswered(o, ws[k].first, ws[k].at, "", o.segmentClock(BeginOf(a, ws[k])))
  }

  /** The source remembers `shown` and `time`, or it has asked in vain since. */
  ghost predicate Remembers(o: Oracles, m: Machine, from: nat, to: nat, shown: string, time: real)
  {
    (m.lastTranscript == shown && m.lastInterimTime == time) || Unanswered(o, from, to, shown, time)
  }

  lemma RemembersOn(o: Oracles, m: Machine, m': Machine, from: nat, i: nat, shown: string, time: real)
    requires from <= i && Remembers(o, m, from, i, shown, time)
    requires (m'.lastTranscript == m.lastTranscript && m'.lastInterimTime == m.lastInterimTime)
      || AskedInVain(o, i, m.lastTranscript, m.lastInterimTime)
    ensures Remembers(o, m', from, i + 1, shown, time)
  {
    if Unanswered(o, from, i, shown, time) {
      var k :| from <= k < i && AskedInVain(o, k, shown, time);
      assert from <= k < i + 1;
    }
  }

  /** What the source remembers: the last write in the current segment, or the segment's opening, or a
      later request where it asked in vain. */
  ghost predicate LastShown(o: Oracles, m: Machine)
  {
    var a, ws := m.audio, m.writes;
    if ws != [] && ws[|ws| - 1].segment == |a.segments| then
      var at := ws[|ws| - 1].at;
      at < a.next && Remembers(o, m, at + 1, a.next, o.bestHypothesis(at), o.clock(at))
    else Remembers(o, m, a.first, a.next, "", o.segmentClock(a.begin))
  }

  ghost predicate NewsInv(o: Oracles, m: Machine)
  {
    var ws := m.writes;
    && (forall k :: 0 <= k < |ws| ==> ws[k].segment <= |m.audio.segments|)
    && (forall k :: 0 <= k < |ws| && IsInterim(ws[k].response) ==> Differs(o, m.audio, ws, k))
    && (m.phase == Inner ==> LastShown(o, m))
  }

  lemma DiffersAppend(o: Oracles, a: Audio, ws: seq<Write>, w: Write)
    requires forall k :: 0 <= k < |ws| && IsInterim(ws[k].response) ==> Differs(o, a, ws, k)
    ensures forall k :: 0 <= k < |ws| && IsInterim(ws[k].response) ==> Differs(o, a, ws + [w], k)
  {
  }

  /** Differs looks at the audio only for where segments begin, which stays. */
  lemma DiffersStays(o: Oracles, a: Audio, b: Audio, ws: seq<Write>)
    requires forall k :: 0 <= k < |ws| && IsInterim(ws[k].response) ==> Differs(o, a, ws, k)
    requires forall k :: 0 <= k < |ws| ==> BeginOf(a, ws[k]) == BeginOf(b, ws[k])
    ensures forall k :: 0 <= k < |ws| && IsInterim(ws[k].response) ==> Differs(o, b, ws, k)
  {
    forall k | 0 <= k < |ws| && IsInterim(ws[k].response) ensures Differs(o, b, ws, k) {
      assert Differs(o, a, ws, k);
    }
  }

  lemma WriteKeepsNews(o: Oracles, m: Machine, r: Response, at: nat)
    requires NewsInv(o, m) && m.phase != Inner && !IsInterim(r)
    ensures NewsInv(o, WriteTo(o, m, r, at))
  {
    DiffersAppend(o, m.audio, m.writes, WriteTo(o, m, r, at).writes[|m.writes|]);
  }

  lemma ReopenKeepsNews(o: Oracles, m: Machine, more: bool)
    requires NewsInv(o, m)
    ensures NewsInv(o, Reopen(o, m, more))
  {
    DiffersStays(o, m.audio, Reopen(o, m, more).audio, m.writes);
  }

  lemma CloseKeepsNews(config: Config, o: Oracles, m: Machine)
    requires NewsInv(o, m) && m.phase.Closing?
    ensures NewsInv(o, CloseStep(config, o, m))
  {
    var a, h := m.audio, FinalHypothesis(config, o, m.audio.begin);
    ReopenKeepsNews(o, m, m.phase.moreData);
    if !HasNoTranscript(h) {
      var r := ResponseFor(config, h, true, Offset(a));
      var m1 := WriteTo(o, m, r, a.begin);
      WriteKeepsNews(o, m, r, a.begin);
      ReopenKeepsNews(o, m1, m.phase.moreData);
      WriteKeepsNews(o, m1, EndOfSingleUtterance, a.begin);
      ReopenKeepsNews(o, WriteTo(o, m1, EndOfSingleUtterance, a.begin), false);
    }
  }

  /** An interim step after decoding the request before the next. */
  lemma InterimKeepsNews(config: Config, o: Oracles, m: Machine, time: int)
    requires NewsInv(o, m) && m.phase == Inner && m.audio.first <= m.audio.next && !o.hasEndpoint(m.audio.next)
    ensures NewsInv(o, Interim(config, o, m.(audio := Decode(m.audio, time)), m.audio.next))
  {
    var i, decoded := m.audio.next, m.(audio := Decode(m.audio, time));
    var m' := Interim(config, o, decoded, i);
    DiffersStays(o, m.audio, decoded.audio, m.writes);
    if m'.writes != m.writes {
      DiffersAppend(o, decoded.audio, m.writes, m'.writes[|m.writes|]);
    } else if m'.phase == Inner {
      var ws, n := m.writes, |m.writes| - 1;
      if ws != [] && ws[n].segment == |m.audio.segments| {
        RemembersOn(o, m, m', ws[n].at + 1, i, o.bestHypothesis(ws[n].at), o.clock(ws[n].at));
      } else {
        RemembersOn(o, m, m', m.audio.first, i, "", o.segmentClock(m.audio.begin));
      }
    }
  }

  lemma StepKeepsNews(config: Config, o: Oracles, requests: seq<string>, m: Machine)
    requires Valid(config) && !m.phase.Done? && NewsInv(o, m) && AudioInv(config, requests, m.audio)
    ensures NewsInv(o, Step(config, o, requests, m))
  {
    var a, i := m.audio, m.audio.next;
    if m.phase.Closing? {
      CloseKeepsNews(config, o, m);
    } else if i < |requests| && !IsEnd(requests[i]) {
      DiffersStays(o, a, Step(config, o, requests, m).audio, m.writes);
      if !o.hasEndpoint(i) { InterimKeepsNews(config, o, m, ChunkTime(config, requests[i])); }
    }
  }

  // ---------------------------------------------------------------- final results

  ghost predicate HasFinal(ws: seq<Write>, j: nat)
  {
    exists k :: 0 <= k < |ws| && ws[k].segment == j && IsFinal(ws[k].response)
  }

  /** A closed segment has a final result exactly when frames were decoded in it. */
  ghost predicate FinalsInv(o: Oracles, m: Machine)
  {
    && (forall j :: 0 <= j < |m.audio.segments| ==>
          (HasFinal(m.writes, j) <==> o.finalFrames(m.audio.segments[j].begin) > 0))
    && (!m.phase.Done? ==> !HasFinal(m.writes, |m.audio.segments|))
    && (forall k :: 0 <= k < |m.writes| ==> m.writes[k].segment <= |m.audio.segments|)
  }

  lemma HasFinalAppend(ws: seq<Write>, w: Write, j: nat)
    ensures HasFinal(ws + [w], j) <==> HasFinal(ws, j) || (w.segment == j && IsFinal(w.response))
  {
    var all := ws + [w];
    if HasFinal(ws, j) {
      var k :| 0 <= k < |ws| && ws[k].segment == j && IsFinal(ws[k].response);
      assert all[k] == ws[k];
    }
    if w.segment == j && IsFinal(w.response) {
      assert all[|ws|] == w;
    }
  }

  lemma WriteKeepsFinals(o: Oracles, m: Machine, r: Response, at: nat)
    requires FinalsInv(o, m) && !m.phase.Done? && !IsFinal(r)
    ensures FinalsInv(o, WriteTo(o, m, r, at))
  {
    var w := WriteTo(o, m, r, at).writes[|m.writes|];
    forall j: nat | j <= |m.audio.segments| ensures HasFinal(m.writes + [w], j) <==> HasFinal(m.writes, j) {
      HasFinalAppend(m.writes, w, j);
    }
  }

  /** Closing a segment whose only final result, if it has frames, is among the last writes. */
  lemma ReopenKeepsFinals(o: Oracles, m: Machine, ws: seq<Write>, more: bool)
    requires FinalsInv(o, m) && !m.phase.Done?
    requires forall j: nat :: j < |m.audio.segments| ==> (HasFinal(ws, j) <==> HasFinal(m.writes, j))
    requires HasFinal(ws, |m.audio.segments|) <==> o.finalFrames(m.audio.begin) > 0
    requires forall k :: 0 <= k < |ws| ==> ws[k].segment <= |m.audio.segments|
    ensures FinalsInv(o, Reopen(o, m.(writes := ws), more))
  {
    var n := |m.audio.segments|;
    var m' := Reopen(o, m.(writes := ws), more);
    forall j | 0 <= j < |m'.audio.segments|
      ensures HasFinal(ws, j) <==> o.finalFrames(m'.audio.segments[j].begin) > 0
    {
      if j < n { assert m'.audio.segments[j] == m.audio.segments[j]; }
    }
  }

  lemma CloseKeepsFinals(config: Config, o: Oracles, m: Machine)
    requires FinalsInv(o, m) && m.phase.Closing?
    ensures FinalsInv(o, CloseStep(config, o, m))
  {
    var a, h, n, ws := m.audio, FinalHypothesis(config, o, m.audio.begin), |m.audio.segments|, m.writes;
    if o.finalFrames(a.begin) <= 0 {
      ReopenKeepsFinals(o, m, ws, m.phase.moreData);
    } else if !HasNoTranscript(h) {
      var w := Write(ResponseFor(config, h, true, Offset(a)), n, a.first, a.begin);
      var e := Write(EndOfSingleUtterance, n, a.first, a.begin);
      forall j: nat | j <= n
        ensures HasFinal(ws + [w], j) <==> HasFinal(ws, j) || j == n
        ensures HasFinal(ws + [w] + [e], j) <==> HasFinal(ws, j) || j == n
      {
        HasFinalAppend(ws, w, j);
        HasFinalAppend(ws + [w], e, j);
      }
      ReopenKeepsFinals(o, m, ws + [w], m.phase.moreData);
      ReopenKeepsFinals(o, m, ws + [w] + [e], false);
    }
  }

  lemma StepKeepsFinals(config: Config, o: Oracles, requests: seq<string>, m: Machine)
    requires Valid(config) && !m.phase.Done? && FinalsInv(o, m)
    ensures FinalsInv(o, Step(config, o, requests, m))
  {
    var a, i := m.audio, m.audio.next;
    if m.phase.Closing? {
      CloseKeepsFinals(config, o, m);
    } else if i < |requests| && !IsEnd(requests[i]) {
      var h := o.interimResults(i);
      var decoded := m.(audio := Decode(a, ChunkTime(config, requests[i])),
                        lastTranscript := o.bestHypothesis(i), lastInterimTime := o.clock(i));
      if h.Hypothesis? && h.transcripts != [] {
        WriteKeepsFinals(o, decoded, ResponseFor(config, h, false, Offset(decoded.audio)), i);
      }
    }
  }

  // ---------------------------------------------------------------- speech and endpoints

  /** The segment skips exactly up to its first request with speech and goes on until an endpoint. */
  ghost predicate Heard(o: Oracles, s: Segment)
  {
    && (forall i :: s.begin <= i < s.first ==> !o.hasSpeech(i))
    && (s.first < s.end ==> o.hasSpeech(s.first))
    && (forall i :: s.first <= i < s.end - 1 ==> !o.hasEndpoint(i))
  }

  /** The segment ends for a reason: an endpoint in its last request, or the end of the audio. */
  ghost predicate Ends(o: Oracles, requests: seq<string>, s: Segment)
  {
    || (s.first < s.end && o.hasEndpoint(s.end - 1))
    || s.end >= |requests| || requests[s.end] == "" || requests[s.end] == "END"
  }

  function Current(a: Audio): Segment { Segment(a.begin, a.first, a.next) }

  ghost predicate HeardInv(o: Oracles, requests: seq<string>, m: Machine)
  {
    var a := m.audio;
    && (forall j :: 0 <= j < |a.segments| ==> Heard(o, a.segments[j]) && Ends(o, requests, a.segments[j]))
    && Heard(o, Current(a)) && a.first <= a.next && (a.speechStarted <==> a.first < a.next)
    && (m.phase == Inner && a.first < a.next ==> !o.hasEndpoint(a.next - 1))
    && (m.phase.Closing? ==> Ends(o, requests, Current(a)))
  }

  lemma CloseKeepsHeard(config: Config, o: Oracles, requests: seq<string>, m: Machine)
    requires m.phase.Closing? && HeardInv(o, requests, m)
    ensures HeardInv(o, requests, CloseStep(config, o, m))
  {
    var closed := CloseSegment(m.audio);
    forall j | 0 <= j < |closed.segments|
      ensures Heard(o, closed.segments[j]) && Ends(o, requests, closed.segments[j])
    {
      if j < |m.audio.segments| { assert closed.segments[j] == m.audio.segments[j]; }
    }
  }

  lemma SkipKeepsHeard(o: Oracles, a: Audio, time: int)
    requires Heard(o, Current(a)) && a.first == a.next && !o.hasSpeech(a.next)
    ensures Heard(o, Current(Skip(a, time)))
  {
  }

  lemma DecodeKeepsHeard(o: Oracles, a: Audio, time: int)
    requires Heard(o, Current(a)) && a.first <= a.next
    requires if a.first == a.next then o.hasSpeech(a.next) else !o.hasEndpoint(a.next - 1)
    ensures Heard(o, Current(Decode(a, time)))
  {
  }

  lemma StepKeepsHeard(config: Config, o: Oracles, requests: seq<string>, m: Machine)
    requires Valid(config) && !m.phase.Done? && HeardInv(o, requests, m) && m.audio.begin <= m.audio.first
    ensures HeardInv(o, requests, Step(config, o, requests, m))
  {
    var a, i := m.audio, m.audio.next;
    if m.phase.Closing? {
      CloseKeepsHeard(config, o, requests, m);
    } else if i < |requests| && !IsEnd(requests[i]) {
      if !a.speechStarted && !o.hasSpeech(i) {
        SkipKeepsHeard(o, a, ChunkTime(config, requests[i]));
      } else {
        DecodeKeepsHeard(o, a, ChunkTime(config, requests[i]));
      }
      assert Step(config, o, requests, m).audio.segments == a.segments;
    }
  }

  // ---------------------------------------------------------------- runs

  predicate EventSent(ws: seq<Write>) { ws != [] && ws[|ws| - 1].response.EndOfSingleUtterance? }

  /** The loop stops for lack of data only where the audio ends, and returns OK only there or after the
      end event. */
  ghost predicate EndInv(requests: seq<string>, m: Machine)
  {
    m.phase == Closing(false) || (m.phase == Done(OK) && !EventSent(m.writes)) ==>
      m.audio.next >= |requests| || IsEnd(requests[m.audio.next])
  }

  /** The recogniser has answered without a transcript, when asked for an interim result of the current
      segment or for its final one. */
  ghost predicate BadAnswer(config: Config, o: Oracles, a: Audio)
  {
    || (config.interimResults
        && exists x ::
             a.first <= x < a.next && o.interimResults(x).Hypothesis? && o.interimResults(x).transcripts == [])
    || (o.finalFrames(a.begin) > 0 && o.finalResults(a.begin, AlternativesAsked(config)).Hypothesis?
        && o.finalResults(a.begin, AlternativesAsked(config)).transcripts == [])
  }

  /** INTERNAL is returned only for such an answer. */
  ghost predicate StatusInv(config: Config, o: Oracles, m: Machine)
  {
    m.phase == Done(INTERNAL) ==> BadAnswer(config, o, m.audio)
  }

  lemma StepKeepsStatus(config: Config, o: Oracles, requests: seq<string>, m: Machine)
    requires Valid(config) && !m.phase.Done? && TimesInv(config, requests, m.audio)
    ensures StatusInv(config, o, Step(config, o, requests, m))
  {
    var i := m.audio.next;
    if m.phase == Inner && i < |requests| && Step(config, o, requests, m).phase == Done(INTERNAL) {
      assert o.interimResults(i).Hypothesis? && o.interimResults(i).transcripts == [];
    }
  }

  ghost predicate Inv(config: Config, o: Oracles, requests: seq<string>, m: Machine)
    requires Valid(config)
  {
    && AudioInv(config, requests, m.audio) && EndInv(requests, m)
    && WritesOk(config, o, m) && ContentInv(config, o, requests, m) && PaceInv(o, m)
    && NewsInv(o, m) && FinalsInv(o, m)
  }

  lemma StepKeepsEnd(config: Config, o: Oracles, requests: seq<string>, m: Machine)
    requires Valid(config) && !m.phase.Done? && EndInv(requests, m)
    ensures EndInv(requests, Step(config, o, requests, m))
  {
  }

  lemma {:induction false} RunKeepsInv(config: Config, o: Oracles, requests: seq<string>, m: Machine)
    requires Valid(config) && m.audio.next <= |requests| && Inv(config, o, requests, m)
    ensures Inv(config, o, requests, Run(config, o, requests, m))
    decreases if m.phase.Done? then 0 else 1, Measure(requests, m)
  {
    if !m.phase.Done? {
      StepDecreases(config, o, requests, m);
      StepKeepsAudio(config, o, requests, m);
      StepKeepsWrites(config, o, requests, m);
      StepKeepsContent(config, o, requests, m);
      StepKeepsEnd(config, o, requests, m);
      StepKeepsPace(config, o, requests, m);
      StepKeepsNews(config, o, requests, m);
      StepKeepsFinals(config, o, requests, m);
      RunKeepsInv(config, o, requests, Step(config, o, requests, m));
    }
  }

  /** Before the first request nothing has been read, closed or written. */
  predicate Fresh(o: Oracles, m: Machine)
  {
    && m.phase == Inner && m.audio.next == m.audio.begin == m.audio.first == 0 && !m.audio.speechStarted
    && m.audio.processedTime == m.audio.segmentTime == m.audio.vadOffset == 0
    && m.lastTranscript == "" && m.lastInterimTime == o.segmentClock(0)
    && |m.audio.fates| == |m.audio.segments| == |m.writes| == 0
  }

  lemma FreshAudio(config: Config, o: Oracles, requests: seq<string>, m: Machine)
    requires Valid(config) && Fresh(o, m)
    ensures AudioInv(config, requests, m.audio)
  {
  }

  lemma FreshInv(config: Config, o: Oracles, requests: seq<string>, m: Machine)
    requires Valid(config) && Fresh(o, m)
    ensures Inv(config, o, requests, m)
  {
    FreshAudio(config, o, requests, m);
  }

  /** What holds at the end of every run. */
  lemma RunInv(config: Config, o: Oracles, requests: seq<string>)
    requires Valid(config)
    ensures Inv(config, o, requests, Run(config, o, requests, Init(o)))
  {
    FreshInv(config, o, requests, Init(o));
    RunKeepsInv(config, o, requests, Init(o));
  }

  /** What holds at the end of every run about speech, endpoints and the status. */
  lemma {:induction false} RunKeepsHeard(config: Config, o: Oracles, requests: seq<string>, m: Machine)
    requires Valid(config) && AudioInv(config, requests, m.audio)
    requires HeardInv(o, requests, m) && StatusInv(config, o, m)
    ensures var r := Run(config, o, requests, m); HeardInv(o, requests, r) && StatusInv(config, o, r)
    decreases if m.phase.Done? then 0 else 1, Measure(requests, m)
  {
    if !m.phase.Done? {
      StepDecreases(config, o, requests, m);
      StepKeepsAudio(config, o, requests, m);
      StepKeepsHeard(config, o, requests, m);
      StepKeepsStatus(config, o, requests, m);
      RunKeepsHeard(config, o, requests, Step(config, o, requests, m));
    }
  }

  lemma FreshHeard(config: Config, o: Oracles, requests: seq<string>, m: Machine)
    requires Fresh(o, m)
    ensures HeardInv(o, requests, m) && StatusInv(config, o, m)
  {
  }

  lemma RunHeard(config: Config, o: Oracles, requests: seq<string>)
    requires Valid(config)
    ensures var r := Run(config, o, requests, Init(o)); HeardInv(o, requests, r) && StatusInv(config, o, r)
  {
    FreshAudio(config, o, requests, Init(o));
    FreshHeard(config, o, requests, Init(o));
    RunKeepsHeard(config, o, requests, Init(o));
  }

  lemma {:induction false} PartitionAt(fates: seq<Fate>, segments: seq<Segment>, n: nat, j: nat)
    requires j < n <= |segments| && Partition(fates, segments, n)
    ensures EndOf(segments, j) == segments[j].begin && Shape(fates, segments[j])
    decreases n
  {
    if j < n - 1 { PartitionAt(fates, segments, n - 1, j); }
  }

  // ---------------------------------------------------------------- main results

  /** On every run the requests read divide, in order and without gap or overlap, into the segments
      (the one cut short by an early return included), each a skipped prefix followed by decoded
      requests.  A segment skips exactly the requests before the first one with speech, and goes on up to
      the first endpoint after that or the end of the audio, which is an empty request or "END".  A run
      that returns OK has read all the audio there is, or in single-utterance mode sent the end event. */
  lemma EveryRunAccountsForAudio(config: Config, o: Oracles, requests: seq<string>)
    requires Valid(config)
    ensures var r := Run(config, o, requests, Init(o));
      var a := r.audio;
      && |a.fates| == a.next <= |requests|
      && (forall i :: 0 <= i < a.next ==> requests[i] != "" && requests[i] != "END")
      && (forall j :: 0 <= j < |a.segments| ==>
            EndOf(a.segments, j) == a.segments[j].begin && Shape(a.fates, a.segments[j]))
      && EndOf(a.segments, |a.segments|) == a.begin
      && Shape(a.fates, Segment(a.begin, a.first, a.next))
      && (forall j :: 0 <= j < |a.segments| ==> Heard(o, a.segments[j]) && Ends(o, requests, a.segments[j]))
      && Heard(o, Segment(a.begin, a.first, a.next))
      && (r.phase == Done(OK) ==>
            || a.next == |requests| || requests[a.next] == "" || requests[a.next] == "END"
            || (config.singleUtterance && r.writes != [] && r.writes[|r.writes| - 1].response.EndOfSingleUtterance?))
  {
    RunInv(config, o, requests);
    RunHeard(config, o, requests);
    var a := Run(config, o, requests, Init(o)).audio;
    forall j | 0 <= j < |a.segments|
      ensures EndOf(a.segments, j) == a.segments[j].begin && Shape(a.fates, a.segments[j])
    {
      PartitionAt(a.fates, a.segments, |a.segments|, j);
    }
  }

  /** On every run the writes follow the grammar, the status is CANCELLED exactly when a write failed,
      which then is the last one, and in single-utterance mode a run that returns OK after a final
      result ends with the end event. */
  lemma EveryRunFollowsGrammar(config: Config, o: Oracles, requests: seq<string>)
    requires Valid(config)
    ensures var r := Run(config, o, requests, Init(o));
      && Grammar(config, o, r.writes)
      && (r.phase == Done(CANCELLED) <==> exists k :: 0 <= k < |r.writes| && !o.writeOk(k))
      && (r.phase == Done(OK) && config.singleUtterance ==>
            forall k :: 0 <= k < |r.writes| && IsFinal(r.writes[k].response) ==>
              r.writes[|r.writes| - 1].response.EndOfSingleUtterance?)
  {
    RunInv(config, o, requests);
  }

  /** On every run the status is INTERNAL only for an answer without a transcript. */
  lemma EveryRunExplainsInternal(config: Config, o: Oracles, requests: seq<string>)
    requires Valid(config)
    ensures var r := Run(config, o, requests, Init(o)); r.phase == Done(INTERNAL) ==> BadAnswer(config, o, r.audio)
  {
    RunHeard(config, o, requests);
  }

  /** In single-utterance mode the only thing that can follow a final result, in any segment, is the
      end event, so there is at most one final result. */
  lemma OnlyEventAfterSingleFinal(config: Config, o: Oracles, requests: seq<string>, j: nat, k: nat)
    requires Valid(config) && config.singleUtterance
    requires var ws := Run(config, o, requests, Init(o)).writes; j < k < |ws| && IsFinal(ws[j].response)
    ensures var ws := Run(config, o, requests, Init(o)).writes;
      ws[k].response.EndOfSingleUtterance? && k == j + 1 == |ws| - 1
  {
    EveryRunFollowsGrammar(config, o, requests);
    var ws := Run(config, o, requests, Init(o)).writes;
    assert Follows(config, ws[j], ws[k], k == j + 1 && k == |ws| - 1);
  }

  /** On every run each result carries what the recogniser answered for its segment, with word times
      moved by exactly the time counted for all requests before the segment's first decoded one. */
  lemma EveryRunShiftsWords(config: Config, o: Oracles, requests: seq<string>, k: nat)
    requires Valid(config) && k < |Run(config, o, requests, Init(o)).writes|
    ensures var r := Run(config, o, requests, Init(o));
      Content(config, o, requests, r.writes[k]) && Placed(r.audio, r.writes[k])
  {
    RunInv(config, o, requests);
  }

  /** On every run interim results come more than 350 ms after their segment opened and after each
      other, with frames decoded and no endpoint, each with another best hypothesis than the one
      before it unless GetResults had nothing to show in between; and a closed segment has a final
      result exactly when frames were decoded in it. */
  lemma EveryRunPacesResults(config: Config, o: Oracles, requests: seq<string>)
    requires Valid(config)
    ensures var r := Run(config, o, requests, Init(o));
      && Spaced(o, r.writes)
      && (forall k :: 0 <= k < |r.writes| && IsInterim(r.writes[k].response) ==>
            Paced(o, r.audio, r.writes[k]) && Differs(o, r.audio, r.writes, k))
      && (forall j :: 0 <= j < |r.audio.segments| ==>
            (HasFinal(r.writes, j) <==> o.finalFrames(r.audio.segments[j].begin) > 0))
  {
    RunInv(config, o, requests);
  }

  lemma StepKeepsWritten(config: Config, o: Oracles, requests: seq<string>, m: Machine)
    requires Valid(config) && !m.phase.Done?
    ensures m.writes <= Step(config, o, requests, m).writes
  {
  }

  /** Writes are never taken back. */
  lemma {:induction false} RunKeepsWritten(config: Config, o: Oracles, requests: seq<string>, m: Machine)
    requires Valid(config) && m.audio.next <= |requests|
    ensures m.writes <= Run(config, o, requests, m).writes
    decreases if m.phase.Done? then 0 else 1, Measure(requests, m)
  {
    if !m.phase.Done? {
      StepDecreases(config, o, requests, m);
      StepKeepsWritten(config, o, requests, m);
      RunKeepsWritten(config, o, requests, Step(config, o, requests, m));
    }
  }

  /** After request i has been decoded there is no endpoint, and it is time for an interim result with hypothesis t. */
  predicate Shows(o: Oracles, i: nat, time: real, t: string)
  {
    !o.hasEndpoint(i) && o.framesDecoded(i) > 0 && o.clock(i) > time + 350.0 && o.bestHypothesis(i) == t
  }

  /** One turn on such a request: an interim result goes out exactly when GetResults has one, and
      a hypothesis without a transcript ends the run. */
  lemma ShowingStep(config: Config, o: Oracles, requests: seq<string>, m: Machine, t: string)
    requires Valid(config) && config.interimResults && m.phase == Inner
    requires var i := m.audio.next;
      && i < |requests| && !IsEnd(requests[i]) && t != m.lastTranscript && Shows(o, i, m.lastInterimTime, t)
      && (m.audio.speechStarted || o.hasSpeech(i)) && o.writeOk(|m.writes|)
    ensures var i, m', h := m.audio.next, Step(config, o, requests, m), o.interimResults(m.audio.next);
      h.Hypothesis? && h.transcripts == [] ==> m'.phase == Done(INTERNAL) && m'.writes == m.writes
    ensures var i, m', h := m.audio.next, Step(config, o, requests, m), o.interimResults(m.audio.next);
      h.NoHypothesis? || h.transcripts != [] ==>
      && m'.phase == Inner && m'.audio.next == i + 1 && m'.audio.segments == m.audio.segments
      && m'.lastTranscript == t && m'.lastInterimTime == o.clock(i)
      && m'.writes == m.writes
           + if o.interimResults(i).NoHypothesis? then []
             else [Write(ResponseFor(config, o.interimResults(i), false, Offset(m'.audio)),
                         |m.audio.segments|, m'.audio.first, i)]
  {
  }

  /** Request x is decoded without frames or an endpoint, so nothing is sent for it. */
  predicate Quiet(o: Oracles, x: nat) { o.hasSpeech(x) && !o.hasEndpoint(x) && o.framesDecoded(x) <= 0 }

  /** Quiet requests up to n change nothing but the place in the audio. */
  lemma {:induction false} QuietSteps(config: Config, o: Oracles, requests: seq<string>, m: Machine, n: nat)
    returns (m': Machine)
    requires Valid(config) && m.phase == Inner && m.audio.next <= n <= |requests|
    requires forall x :: m.audio.next <= x < n ==> !IsEnd(requests[x]) && Quiet(o, x)
    ensures m'.phase == Inner && m'.audio.next == n && m'.audio.segments == m.audio.segments
    ensures m'.lastTranscript == m.lastTranscript && m'.lastInterimTime == m.lastInterimTime && m'.writes == m.writes
    ensures Run(config, o, requests, m') == Run(config, o, requests, m)
    decreases n - m.audio.next
  {
    if m.audio.next == n {
      m' := m;
    } else {
      var x := m.audio.next;
      assert !IsEnd(requests[x]) && Quiet(o, x);
      m' := QuietSteps(config, o, requests, Step(config, o, requests, m), n);
    }
  }

  predicate Answered(answers: nat -> Hypothesis, x: nat) { answers(x).Hypothesis? && answers(x).transcripts != [] }

  /** Requests 0 to k are quiet but for j, i and k: the recogniser shows t, then u but with nothing for
      GetResults, then t again. */
  ghost predicate SilentGap(o: Oracles, j: nat, i: nat, k: nat, t: string, u: string)
  {
    && j < i < k && t != "" && u != t
    && (forall x: nat :: x < k && x != j && x != i ==> Quiet(o, x))
    && o.hasSpeech(j) && o.hasSpeech(i) && o.hasSpeech(k)
    && Shows(o, j, o.segmentClock(0), t) && Shows(o, i, o.clock(j), u) && Shows(o, k, o.clock(i), t)
    && Answered(o.interimResults, j) && o.interimResults(i).NoHypothesis? && Answered(o.interimResults, k)
  }

  /** Writes k - 1 and k are interim results of one segment with the same best hypothesis. */
  predicate RepeatsAt(o: Oracles, ws: seq<Write>, k: nat)
    requires 0 < k < |ws|
  {
    && IsInterim(ws[k - 1].response) && IsInterim(ws[k].response) && ws[k - 1].segment == ws[k].segment
    && o.bestHypothesis(ws[k].at) == o.bestHypothesis(ws[k - 1].at)
  }

  ghost predicate Repeats(config: Config, o: Oracles, requests: seq<string>, m: Machine)
    requires Valid(config) && m.audio.next <= |requests|
  {
    var ws := Run(config, o, requests, m).writes;
    exists k :: 0 < k < |ws| && RepeatsAt(o, ws, k)
  }

  lemma ShownTwice(config: Config, o: Oracles, requests: seq<string>, m0: Machine, j: nat, i: nat, k: nat,
                   t: string, u: string)
    requires Valid(config) && config.interimResults && k < |requests| && Fresh(o, m0)
    requires forall x :: 0 <= x <= k ==> !IsEnd(requests[x])
    requires SilentGap(o, j, i, k, t, u) && o.writeOk(0) && o.writeOk(1)
    ensures Repeats(config, o, requests, m0)
  {
    var m1 := QuietSteps(config, o, requests, m0, j);
    ShowingStep(config, o, requests, m1, t);
    var m2 := Step(config, o, requests, m1);
    var m3 := QuietSteps(config, o, requests, m2, i);
    ShowingStep(config, o, requests, m3, u);
    var m4 := Step(config, o, requests, m3);
    var m5 := QuietSteps(config, o, requests, m4, k);
    ShowingStep(config, o, requests, m5, t);
    var m6 := Step(config, o, requests, m5);
    RunKeepsWritten(config, o, requests, m6);
    var ws := Run(config, o, requests, m6).writes;
    assert ws[0] == m6.writes[0] && ws[1] == m6.writes[1];
    assert RepeatsAt(o, ws, 1);
    assert Run(config, o, requests, m6) == Run(config, o, requests, m5);
    assert Run(config, o, requests, m4) == Run(config, o, requests, m3);
    assert Run(config, o, requests, m2) == Run(config, o, requests, m1);
  }

  /** The exception is real: when GetResults has nothing to show in between, the same hypothesis t can
      be sent twice in a row. */
  lemma InterimCanRepeat(config: Config, o: Oracles, requests: seq<string>, j: nat, i: nat, k: nat,
                         t: string, u: string)
    requires Valid(config) && config.interimResults && k < |requests|
    requires forall x :: 0 <= x <= k ==> !IsEnd(requests[x])
    requires SilentGap(o, j, i, k, t, u) && o.writeOk(0) && o.writeOk(1)
    ensures Repeats(config, o, requests, Init(o))
  {
    ShownTwice(config, o, requests, Init(o), j, i, k, t, u);
  }

  /** The requests before the first end marker, among the first m. */
  function AudioUpTo(requests: seq<string>, m: nat): (n: nat)
    requires m <= |requests|
    ensures n <= m && (forall x :: 0 <= x < n ==> !IsEnd(requests[x])) && (n < m ==> IsEnd(requests[n]))
  {
    if m == 0 then 0
    else
      var n := AudioUpTo(requests, m - 1);
      if n == m - 1 && !IsEnd(requests[n]) then m else n
  }

  /** GetResults answers for two of the first n requests and has nothing to show for one in between. */
  ghost predicate HasGap(answers: nat -> Hypothesis, n: nat)
  {
    exists j: nat, i: nat, k: nat ::
      j < i < k < n && Answered(answers, j) && answers(i).NoHypothesis? && Answered(answers, k)
  }

  /** Interim results are sent only when asked for, and for requests that GetResults answers. */
  lemma InterimIsAnswered(config: Config, o: Oracles, requests: seq<string>, m: Machine, k: nat)
    requires Valid(config) && AudioInv(config, requests, m.audio) && Grammar(config, o, m.writes)
    requires ContentInv(config, o, requests, m) && k < |m.writes| && IsInterim(m.writes[k].response)
    ensures config.interimResults && m.writes[k].at < m.audio.next && Answered(o.interimResults, m.writes[k].at)
  {
    var w := m.writes[k];
    assert Content(config, o, requests, w) && Placed(m.audio, w);
    if w.segment < |m.audio.segments| {
      PartitionAt(m.audio.fates, m.audio.segments, |m.audio.segments|, w.segment);
    }
  }

  /** What has been read is audio. */
  lemma ReadIsAudio(requests: seq<string>, a: Audio)
    requires NoEndRead(requests, a)
    ensures a.next <= AudioUpTo(requests, |requests|)
  {
  }

  lemma RepeatIsGap(config: Config, o: Oracles, requests: seq<string>, m: Machine, k: nat)
    requires Valid(config) && AudioInv(config, requests, m.audio) && Grammar(config, o, m.writes)
    requires ContentInv(config, o, requests, m) && 0 < k < |m.writes| && RepeatsAt(o, m.writes, k)
    requires Differs(o, m.audio, m.writes, k)
    ensures config.interimResults && HasGap(o.interimResults, AudioUpTo(requests, |requests|))
  {
    var x, y := m.writes[k - 1].at, m.writes[k].at;
    InterimIsAnswered(config, o, requests, m, k - 1);
    InterimIsAnswered(config, o, requests, m, k);
    ReadIsAudio(requests, m.audio);
    var i :| x + 1 <= i < y && AskedInVain(o, i, o.bestHypothesis(x), o.clock(x));
    assert x < i < y && Answered(o.interimResults, x) && Answered(o.interimResults, y);
  }

  /** A repeated hypothesis needs such a gap. */
  lemma RepeatNeedsGap(config: Config, o: Oracles, requests: seq<string>)
    requires Valid(config) && Repeats(config, o, requests, Init(o))
    ensures config.interimResults && HasGap(o.interimResults, AudioUpTo(requests, |requests|))
  {
    RunInv(config, o, requests);
    EveryRunFollowsGrammar(config, o, requests);
    var r := Run(config, o, requests, Init(o));
    var k :| 0 < k < |r.writes| && RepeatsAt(o, r.writes, k);
    RepeatIsGap(config, o, requests, r, k);
  }

  /** A recogniser with the given answers that shows "t" after requests j and k, "u" after i, and nothing
      else. */
  function GapOracles(answers: nat -> Hypothesis, j: nat, i: nat, k: nat): Oracles
  {
    Oracles(_ => true, _ => false, n => if n == j || n == i || n == k then 1 else 0, n => 1000.0 * (n + 1) as real,
            n => if n == i then "u" else "t", answers, _ => 0.0, _ => 0, (_, _) => NoHypothesis, _ => true)
  }

  lemma GapRepeats(config: Config, requests: seq<string>, answers: nat -> Hypothesis, j: nat, i: nat, k: nat)
    requires Valid(config) && config.interimResults && j < i < k < |requests|
    requires forall x :: 0 <= x <= k ==> !IsEnd(requests[x])
    requires Answered(answers, j) && answers(i).NoHypothesis? && Answered(answers, k)
    ensures var o := GapOracles(answers, j, i, k);
      o.interimResults == answers && Repeats(config, o, requests, Init(o))
  {
    InterimCanRepeat(config, GapOracles(answers, j, i, k), requests, j, i, k, "t", "u");
  }

  /** Exactly when a hypothesis is never repeated: for given answers of GetResults, no behaviour of the
      rest of the recogniser, the clock and the peer makes the source send the same best hypothesis
      twice in a row in a segment, if and only if no interim results are asked for or the answers have
      no gap. */
  lemma NeverRepeatsExactly(config: Config, requests: seq<string>, answers: nat -> Hypothesis)
    requires Valid(config)
    ensures (forall o: Oracles :: o.interimResults == answers ==> !Repeats(config, o, requests, Init(o)))
      <==> !config.interimResults || !HasGap(answers, AudioUpTo(requests, |requests|))
  {
    if config.interimResults && HasGap(answers, AudioUpTo(requests, |requests|)) {
      var j: nat, i: nat, k: nat :| j < i < k < AudioUpTo(requests, |requests|)
        && Answered(answers, j) && answers(i).NoHypothesis? && Answered(answers, k);
      GapRepeats(config, requests, answers, j, i, k);
    } else {
      forall o: Oracles | o.interimResults == answers ensures !Repeats(config, o, requests, Init(o)) {
        if Repeats(config, o, requests, Init(o)) { RepeatNeedsGap(config, o, requests); }
      }
    }
  }

  predicate WordCarried(ali: AlignedWord, info: WordInfo, offset: int)
  {
    && info.word == ali.symbol
    && ToMillis(info.startTime) == ali.startTime + offset
    && ToMillis(info.endTime) == ali.startTime + ali.duration + offset
  }

  ghost predicate WordsCarried(words: seq<AlignedWord>, infos: seq<WordInfo>, offset: int)
  {
    |infos| == |words| && forall k :: 0 <= k < |words| ==> WordCarried(words[k], infos[k], offset)
  }

  /** A response carries every transcript of the hypothesis, in order; with word times asked for, the
      first alternative carries every word, starting and ending on the wire `offset` milliseconds
      later than the recogniser said, and no other alternative carries words. */
  lemma ResponseCarriesHypothesis(config: Config, h: Hypothesis, isFinal: bool, offset: int)
    requires h.Hypothesis? && h.transcripts != []
    ensures var r := ResponseFor(config, h, isFinal, offset);
      && r.Results? && r.isFinal == isFinal && |r.alternatives| == |h.transcripts|
      && (forall i :: 0 <= i < |h.transcripts| ==> r.alternatives[i].transcript == h.transcripts[i])
      && (forall i :: 0 <= i < |h.transcripts| && (i > 0 || !config.enableWordTimeOffsets) ==>
            r.alternatives[i].words == [])
      && (config.enableWordTimeOffsets ==>
            WordsCarried(h.bestAligned, r.alternatives[0].words, offset))
  {
    if config.enableWordTimeOffsets {
      forall k | 0 <= k < |h.bestAligned|
        ensures WordCarried(h.bestAligned[k], ShiftedWords(h.bestAligned, offset)[k], offset)
      {
        ConvertKeepsTimes(Shift(h.bestAligned[k], offset));
      }
    }
  }

  /** All samples of the first n requests, two bytes each. */
  function TotalSamples(requests: seq<string>, n: nat): nat
    requires n <= |requests|
  {
    if n == 0 then 0 else TotalSamples(requests, n - 1) + |requests[n - 1]| / 2
  }

  lemma DivisionSplits(n: nat, d: nat)
    requires d > 0
    ensures n / d * d <= n < n / d * d + d
  {
  }

  lemma Distribute(a: nat, b: nat, d: nat)
    ensures (a + b) * d == a * d + b * d
  {
  }

  lemma QuotientIs(n: nat, q: nat, d: nat)
    requires d > 0 && q * d <= n < q * d + d
    ensures n / d == q
  {
    var t := n / d;
    DivisionSplits(n, d);
    if t < q {
      Distribute(t + 1, q - t - 1, d);
      Distribute(t, 1, d);
    } else if q < t {
      Distribute(q + 1, t - q - 1, d);
      Distribute(q, 1, d);
    }
  }

  lemma FloorOfSum(x: nat, y: nat, rate: nat)
    requires rate > 0
    ensures x / rate + y / rate <= (x + y) / rate <= x / rate + y / rate + 1
    ensures x == 0 ==> (x + y) / rate == y / rate
  {
    var q, s := x / rate, y / rate;
    var u, v := x - q * rate, y - s * rate;
    DivisionSplits(x, rate);
    DivisionSplits(y, rate);
    Distribute(q, s, rate);
    if u + v < rate {
      QuotientIs(x + y, q + s, rate);
    } else {
      Distribute(q + s, 1, rate);
      QuotientIs(x + y, q + s + 1, rate);
    }
  }

  /** Rounding down request by request loses less than one millisecond per request. */
  lemma {:induction false} ElapsedLag(config: Config, requests: seq<string>, n: nat)
    requires Valid(config) && n <= |requests|
    ensures var exact := 1000 * TotalSamples(requests, n) / config.sampleRate;
      Elapsed(config, requests, n) <= exact && exact - Elapsed(config, requests, n) <= (if n == 0 then 0 else n - 1)
  {
    var rate := config.sampleRate;
    if n > 0 {
      ElapsedLag(config, requests, n - 1);
      FloorOfSum(1000 * TotalSamples(requests, n - 1), 1000 * Samples(requests[n - 1]), rate);
      if n == 1 { assert 0 / rate == 0; }
    }
  }

  // ---------------------------------------------------------------- the source's loops

  function Responses(ws: seq<Write>): (r: seq<Response>)
    ensures |r| == |ws|
  {
    seq(|ws|, i requires 0 <= i < |ws| => ws[i].response)
  }

  lemma ResponsesAppend(ws: seq<Write>, w: Write)
    ensures Responses(ws + [w]) == Responses(ws) + [w.response]
  {
  }

  /** The status with which a phase returns, OK while it does not. */
  function StatusOf(p: Phase): Status { if p.Done? then p.status else OK }

  /** The part of the inner loop that sends interim results. */
  method SendInterim(config: Config, o: Oracles, ghost m: Machine, i: nat, offset: int,
                     transcript: string, time: real, written: seq<Response>)
    returns (ghost m': Machine, status: Status, lastTranscript: string, lastInterimResultTime: real,
             responses: seq<Response>)
    requires m.phase == Inner && offset == Offset(m.audio)
    requires m.lastTranscript == transcript && m.lastInterimTime == time && written == Responses(m.writes)
    ensures m' == Interim(config, o, m, i) && status == StatusOf(m'.phase) && responses == Responses(m'.writes)
    ensures status == OK ==> m'.lastTranscript == lastTranscript && m'.lastInterimTime == lastInterimResultTime
  {
    m', status, lastTranscript, lastInterimResultTime, responses :=
      Interim(config, o, m, i), OK, transcript, time, written;
    if config.interimResults {
      var now := o.clock(i);
      if o.framesDecoded(i) > 0 && now - lastInterimResultTime > 350.0 {
        var curTranscript := o.bestHypothesis(i);
        if curTranscript != lastTranscript {
          lastTranscript := curTranscript;
          var added, response := AddResults(config, o.interimResults(i), false, offset);
          if added != OK {
            status := added;
            return;
          }
          if response != NoResults {
            ResponsesAppend(m.writes, m'.writes[|m.writes|]);
            responses := responses + [response];
            if !o.writeOk(|responses| - 1) {
              status := CANCELLED;
              return;
            }
          }
          lastInterimResultTime := now;
        }
      }
    }
  }

  /** The inner loop: reads requests until an endpoint, the end of the audio or an early return, and
      records for each whether it was decoded. */
  method RunSegment(config: Config, o: Oracles, requests: seq<string>, ghost m: Machine,
                    start: nat, processedTime: int, heard: seq<Fate>, written: seq<Response>)
    returns (ghost m': Machine, next: nat, segmentTime: int, vadOffset: int, moreData: bool, status: Status,
             fates: seq<Fate>, responses: seq<Response>)
    requires Valid(config) && start <= |requests|
    requires m == Opened(o, start, processedTime, heard, m.audio.segments, m.writes) && written == Responses(m.writes)
    ensures m'.audio.next == next && start <= next <= |requests|
    ensures m'.audio.processedTime == processedTime && m'.audio.begin == start
    ensures m'.audio.segmentTime == segmentTime && m'.audio.vadOffset == vadOffset
    ensures m'.audio.fates == fates && responses == Responses(m'.writes)
    ensures m'.phase == if status == OK then Closing(moreData) else Done(status)
    ensures status == OK && moreData ==> start < next
    ensures Run(config, o, requests, m') == Run(config, o, requests, m)
  {
    m', next, fates, responses, status, moreData := m, start, heard, written, OK, true;
    segmentTime, vadOffset := 0, 0;
    var lastInterimResultTime := o.segmentClock(start);
    var lastTranscript := "";
    var endpointDetected := false;
    var speechStarted := false;
    while !endpointDetected
      invariant start <= next <= |requests| && status == OK && moreData && (endpointDetected ==> start < next)
      invariant m'.phase == if endpointDetected then Closing(true) else Inner
      invariant m'.audio == Audio(next, processedTime, segmentTime, vadOffset, speechStarted, start,
                                  m'.audio.first, fates, m'.audio.segments)
      invariant !endpointDetected ==> m'.lastTranscript == lastTranscript && m'.lastInterimTime == lastInterimResultTime
      invariant responses == Responses(m'.writes)
      invariant Run(config, o, requests, m') == Run(config, o, requests, m)
      decreases |requests| - next, !endpointDetected
    {
      ghost var before := m';
      StepDecreases(config, o, requests, before);
      m' := Step(config, o, requests, before);
      if next == |requests| || IsEnd(requests[next]) {
        moreData := false;
        return;
      }
      var chunkTime := ChunkTime(config, requests[next]);
      segmentTime := segmentTime + chunkTime;
      if !speechStarted {
        speechStarted := o.hasSpeech(next);
        if !speechStarted {
          vadOffset := vadOffset + chunkTime;
        }
      }
      if speechStarted {
        fates := fates + [Decoded];
        endpointDetected := o.hasEndpoint(next);
        if !endpointDetected {
          ghost var after := before.(audio := Decode(before.audio, chunkTime));
          m', status, lastTranscript, lastInterimResultTime, responses :=
            SendInterim(config, o, after, next, vadOffset + processedTime, lastTranscript,
                        lastInterimResultTime, responses);
          if status != OK {
            next := next + 1;
            return;
          }
        }
      } else {
        fates := fates + [Skipped];
      }
      next := next + 1;
    }
  }

  /** The end of a segment: writes its final result and, for a single utterance, the end event. */
  method SendFinal(config: Config, o: Oracles, ghost m: Machine, begin: nat, offset: int, written: seq<Response>)
    returns (ghost m': Machine, status: Status, endOfSingleUtterance: bool, responses: seq<Response>)
    requires m.phase.Closing? && begin == m.audio.begin && offset == Offset(m.audio) && written == Responses(m.writes)
    ensures m'.audio == m.audio && responses == Responses(m'.writes)
    ensures status == StatusOf(m'.phase) && (m'.phase.Done? || m'.phase == m.phase)
    ensures m'.phase.Done? ==> CloseStep(config, o, m) == m' && status != OK
    ensures !m'.phase.Done? ==>
      CloseStep(config, o, m) == Reopen(o, m', m.phase.moreData && !endOfSingleUtterance)
  {
    m', status, endOfSingleUtterance, responses := m, OK, false, written;
    if o.finalFrames(begin) > 0 {
      var maxAlternatives := if config.maxAlternatives == 0 then 1 else config.maxAlternatives;
      var added, response := AddResults(config, o.finalResults(begin, maxAlternatives), true, offset);
      if added != OK {
        m', status := m.(phase := Done(INTERNAL)), added;
        return;
      }
      m' := WriteTo(o, m, response, begin);
      ResponsesAppend(m.writes, m'.writes[|m.writes|]);
      responses := responses + [response];
      if !o.writeOk(|responses| - 1) {
        status := CANCELLED;
        return;
      }
      if config.singleUtterance {
        endOfSingleUtterance := true;
        ghost var final := m';
        m' := WriteTo(o, m', EndOfSingleUtterance, begin);
        ResponsesAppend(final.writes, m'.writes[|final.writes|]);
        responses := responses + [EndOfSingleUtterance];
        if !o.writeOk(|responses| - 1) {
          status := CANCELLED;
          return;
        }
      }
    }
  }

  /** RunStreamingProcessor: what it returns and writes, and which of the requests read it decodes and
      which it skips, is what the transition system does. */
  method RunStreamingProcessor(config: Config, o: Oracles, requests: seq<string>)
    returns (status: Status, fates: seq<Fate>, responses: seq<Response>)
    requires Valid(config)
    ensures var r := Run(config, o, requests, Init(o));
      r.phase == Done(status) && fates == r.audio.fates && responses == Responses(r.writes)
  {
    ghost var m := Init(o);
    var next := 0;
    var processedTime := 0;
    var moreData := true;
    var endOfSingleUtterance := false;
    status, fates, responses := OK, [], [];
    while moreData && !endOfSingleUtterance
      invariant next <= |requests| && status == OK
      invariant m.audio.fates == fates && responses == Responses(m.writes)
      invariant if moreData && !endOfSingleUtterance then
          m == Opened(o, next, processedTime, fates, m.audio.segments, m.writes)
        else m.phase == Done(OK) && m.audio.next <= |requests|
      invariant Run(config, o, requests, m) == Run(config, o, requests, Init(o))
      decreases |requests| - next, moreData && !endOfSingleUtterance
    {
      var begin := next;
      var segmentTime, vadOffset;
      ghost var inner := m;
      m, next, segmentTime, vadOffset, moreData, status, fates, responses :=
        RunSegment(config, o, requests, inner, begin, processedTime, fates, responses);
      if status != OK {
        return;
      }
      ghost var closing := m;
      ghost var final;
      final, status, endOfSingleUtterance, responses :=
        SendFinal(config, o, closing, begin, vadOffset + processedTime, responses);
      StepDecreases(config, o, requests, closing);
      m := CloseStep(config, o, closing);
      assert Run(config, o, requests, m) == Run(config, o, requests, closing);
      if status != OK {
        return;
      }
      processedTime := processedTime + segmentTime;
    }
  }
}
