# Tiro speech core: verified model

A Dafny model of the hand-written algorithms of the Tiro speech recognition server, the ones that sit
between the foreign libraries (Kaldi, OpenFst, FFmpeg, Torch, gRPC), with proofs of what they are for.
`dafny verify dfyconfig.toml`, with its default options, checks everything.

| file | what it models |
|---|---|
| `VadSegmentation.dfy` | turning frame-wise voice activity into segments, widened under a silence budget |
| `Diarization.dfy` | labelling segments with speakers and words with speaker tags |
| `Xvector.dfy` | chunking, edge padding and averaging around the embedding network |
| `Streaming.dfy` | the streaming recognition loop: transition system, runs, and the nested loops |
| `Alignment.dfy` | time-aligned words and their conversion to wire durations |
| `TimingWeight.dfy`, `Converters.dfy`, `Formatter.dfy` | formatting that keeps word times |
| `WordPiece.dfy`, `Punctuation.dfy` | the word-piece tokenizer and the alignment of predicted punctuation |
| `InputBuffer.dfy` | the refilling byte window and the read callback of the audio demuxer |
| `ThreadSafeQueue.dfy` | the blocking queue, as interleaved atomic steps |
| `AudioSource.dfy` | chunked audio sources and the decode loop of the unary call |
| `Utils.dfy` | optional values, and splitting a sequence into chunks |

Loops and updates in place are methods with loops, arrays and classes, each proved equal to a
specification function or predicate; the results are lemmas about those. The streaming loop and the
queue are transition systems, because what matters there is every run and every interleaving; the
streaming loop is also given as the nested loops of the source, proved to do what the system does.
What a library or the peer answers is a parameter: a function from the number of the request, segment
or write to an arbitrary answer, or an arbitrary function from ids to predictions.

Main results:

- Segmentation widens the maximal voiced runs round by round to exactly the frame budget or to the last
  run's end; the result is unique, ordered and disjoint, ends where the runs end, loses no voiced frame
  and never adds more silence than asked for. The branch that would move segment ends is never taken.
- Each word is tagged by the one interval its start lies in, stated on frame times. Labelling reads past the end of an empty
  vector exactly when no frame is voiced.
- On every streaming run the audio divides into segments; each skips exactly the requests before the
  first with speech and ends at the first endpoint after it or with the audio. Word times are shifted by
  exactly the time counted before the segment's first decoded request; the writes follow one grammar; and
  the run ends for every request list. The same best hypothesis is never sent twice in a row, whatever the
  rest of the recogniser does, exactly when the answers of GetResults have no gap.
- Formatting times every output word exactly when the weights come in time; the condition is a scan over
  the arcs.  Then each output word spans the hull of the input words that end while it is written, or of
  the next one to end when none does; these groups use up the input, and path and words determine them.
- Converting words to a timed byte string and back is the identity exactly when no word holds a space or
  a zero byte.
- A word is split exactly along its greedy longest cuts, and unknown exactly when these get stuck or it
  is too long.
- Merging the pieces of a word list gives back one entry per word exactly when every word begins with a
  piece that is no continuation; punctuation labels suffice under exactly the same condition.
- Punctuating segment by segment agrees with punctuating at once exactly when the first segment's last
  word carries a mark, or does not end like a sentence, or the next word has no capital form.
- The input window is always a slice of the stream, and draining it delivers the stream and then EOF.
- The queue loses no wakeup and no item in any interleaving, and comes to rest with as many items handed
  out as there were pushes or pops, whichever is fewer.

Where the code and its comments disagree the model follows the code: `src/itn/converters.h:65-73` says a
weight begins a word, while the code ends a word at a space; `src/itn/timing-weight.h:27-35` gives the
unit weight as (inf, 0), while the library's min-max semiring makes it (inf, -inf); and
`src/audio/audio-source.h:77` says `ChunksSeen` equals the number of `NextChunk` calls, which
`FileAudioSource` does not keep after a short last chunk. `in_segment` at `src/diarization.cc:147` is
declared without a value; the model lets it start false.

## Model

| member | source | states |
|---|---|---|
| VadSegmentation.RunsAreSound | src/diarization.cc:131-144 | the reference runs are the maximal voiced runs: each starts after silence, ends before silence, is voiced throughout, and two runs never touch |
| VadSegmentation.RunsCover | src/diarization.cc:131-144 | every voiced frame lies in a listed run |
| VadSegmentation.MarkersAreRunEnds | src/diarization.cc:131-144 | the local start and end conditions of the marking loop hold at exactly the run starts and run ends |
| VadSegmentation.MarkRuns | src/diarization.cc:128-144 | the two marker vectors hold exactly the starts and the ends of the maximal voiced runs |
| VadSegmentation.CollectActive | src/diarization.cc:146-163 | the active frames are the run starts in order, and the counter is the number of voiced frames |
| VadSegmentation.WidenOne | src/diarization.cc:171-187 | one visit moves one start mark one frame back when there is room, keeps marks and segments in step, counts a frame exactly when it moved one, and never takes the end-moving branch |
| VadSegmentation.WidenRound | src/diarization.cc:169-191 | a round serves the segments in order, stops exactly at the target, never beyond it, and reports a change exactly when a frame was added |
| VadSegmentation.WidenSegments | src/diarization.cc:167-195 | widening terminates with round-robin widened runs covering min(target, end of the last run) frames, or the voiced frames if those are more |
| VadSegmentation.IdleRound | src/diarization.cc:192-194 | a round that moves nothing leaves every segment touching its predecessor, so all frames up to the last end are covered |
| VadSegmentation.WidenedTotalBound | src/diarization.cc:167-195 | widening never removes a frame and never covers more than the frames before the last run's end |
| VadSegmentation.EmitSegments | src/diarization.cc:197-214 | the sweep emits exactly the marked segments in order, and its three asserts, stated in EmitNext and FindEnd, never fail |
| VadSegmentation.SegmentByVad | src/diarization.cc:124-215 | the result is the maximal voiced runs widened round-robin to the frame budget of the requested proportion of silence |
| VadSegmentation.SegmentationProperties | src/diarization.cc:124-215 | one segment per run, in order, non-empty, disjoint, inside the vector, ending with its run and starting no later, so that every voiced frame is covered |
| VadSegmentation.SegmentationUnique | src/diarization.cc:165-195 | voiced vector and target determine the segments |
| VadSegmentation.SilenceBudget | src/diarization.cc:165-195 | the silence kept never exceeds the proportion asked for, and one more frame would exceed it unless the last run's end is reached |
| VadSegmentation.WideningIsFair | src/diarization.cc:165-195 | a segment that still has room has been widened as often as any later one, and at most one frame less than any earlier one |
| Diarization.ComputeDiarization | src/diarization.cc:230-272 | the labels follow the segmentation one to one, speaker 1 for a single segment and the cluster ids otherwise; out of range exactly when no frame is voiced |
| Diarization.EmptyIffSilent | src/diarization.cc:242-245 | the segmentation is empty exactly when no frame is voiced |
| Diarization.TagSpeaker | src/api/services.cc:96-124 | each word gets the tag of the first decision whose interval its start lies in, and is unchanged when there is none; millisecond t lies in an interval when it has begun at the start of the first frame and is over at the end of the last, frame number times frame shift |
| Diarization.ContainsExactly | src/api/services.cc:103-120 | the comparison of truncated milliseconds means exactly that: the start frame times the frame shift lies before t + 1, and t + 1 not after the end frame times the frame shift |
| Diarization.HitIsUnique | src/api/services.cc:113-122 | over a segmentation at most one interval contains a time, so the first hit is the only one |
| Diarization.TaggingIsExact | src/api/services.cc:96-124 | a converted word is tagged by decision j when the word's own start lies in j's interval, at most one over a segmentation, and keeps tag 0 when none holds it |
| Alignment.DurationRoundTrip | src/api/services.cc:56-71 | the milliseconds recomputed from seconds and nanoseconds are the original ones, negative times included |
| Alignment.DurationIsNormalised | src/api/services.cc:60-70 | seconds and nanoseconds add up to the milliseconds exactly, the nanoseconds stay below one second and agree in sign with the seconds |
| Alignment.ConvertKeepsTimes | src/api/services.cc:56-71 | the wire form keeps the word, its start and its end, and has speaker tag 0 |
| Utils.ChunksPartition | src/diarization.cc:46-70 | the chunks partition the rows in order, none empty, none over the chunk size, all but the last full |
| Xvector.ChunkStarts | src/diarization.cc:54-68 | the quotient rounded up is the number of chunks, and chunk i is the chunk that starts at row i times the chunk size |
| Xvector.PadChunk | src/diarization.cc:72-85 | every row of the padded matrix is written, giving the chunk between copies of its first and last rows |
| Xvector.PaddedIsClamped | src/diarization.cc:74-85 | row i of a padded chunk is the chunk's row i - left clamped to the chunk, the right side getting the odd row |
| Xvector.Compute | src/diarization.cc:43-95 | the average times the number of rows is the sum over the slices of the chunk size, in order and the last perhaps shorter, of length times network output; a slice of at least the minimum length goes to the network as it is, a shorter one with its first and last rows repeated; all rows in one long enough slice give the network output on all rows |
| Xvector.AverageIsOverSlices | src/diarization.cc:46-92 | the same of the reference sum: slice i is rows i times the size up to (i + 1) times the size or the end, and each network input is the slice or its clamped extension |
| Xvector.AverageIsConvex | src/diarization.cc:90-92 | the average stays between any bounds on the network's outputs |
| Streaming.AddResults | src/api/services.cc:315-356 | the response is the one for the hypothesis, and INTERNAL is returned exactly for a hypothesis without a transcript |
| Streaming.ResponseCarriesHypothesis | src/api/services.cc:328-353 | a response carries every transcript in order and, if asked for, every word in the first alternative, its wire times later by the offset |
| Streaming.StepDecreases | src/api/services.cc:360-484 | every turn of the loops decreases a measure, so the processor returns for every finite request list |
| Streaming.StepKeepsAudio | src/api/services.cc:374-406 | every turn keeps the partition into segments and the meaning of the three time counters |
| Streaming.StepKeepsWrites | src/api/services.cc:408-481 | every turn keeps the grammar of the writes |
| Streaming.StepKeepsContent | src/api/services.cc:422-427 | every turn keeps the word times of all results at the time counted before their segment's first decoded request |
| Streaming.StepKeepsHeard | src/api/services.cc:374-410 | every turn keeps that each segment skips the requests without speech up to the first with speech, and ends for an endpoint or the end of audio |
| Streaming.EveryRunAccountsForAudio | src/api/services.cc:360-484 | on every run the requests read divide into segments; each skips exactly the requests before the first with speech, decodes all from there, and closes at the first endpoint or where the audio ends, at an empty request or "END"; a run that returns OK has read all audio or sent the end event of single-utterance mode |
| Streaming.EveryRunExplainsInternal | src/api/services.cc:332-334 | a run returns INTERNAL only when GetResults gave a hypothesis without a transcript, for an interim result that was asked for or for a final one with the alternatives asked for |
| Streaming.EveryRunFollowsGrammar | src/api/services.cc:360-486 | on every run each segment has interim results, if asked for, before at most one final result; the end event comes only in single-utterance mode, last, right after a final result; CANCELLED exactly after a failed write, which is the last |
| Streaming.OnlyEventAfterSingleFinal | src/api/services.cc:468-480 | in single-utterance mode nothing but the end event follows a final result, so there is at most one |
| Streaming.EveryRunShiftsWords | src/api/services.cc:342-345 | every result carries the recogniser's hypothesis for its own segment with times shifted by the time of all requests before the segment's first decoded one |
| Streaming.EveryRunPacesResults | src/api/services.cc:408-450 | interim results of a segment come more than 350 ms after it opened and after each other on a clock of any resolution, with frames and without endpoint, each with another best hypothesis than the one before unless the source asked GetResults in between, about another hypothesis and past the 350 ms, and got nothing; a closed segment has a final result exactly when frames were decoded |
| Streaming.StepKeepsNews | src/api/services.cc:412-437 | every turn keeps the remembered hypothesis and time those of the last interim result of the segment, or of its opening, unless the source has asked GetResults in vain since |
| Streaming.ShowingStep | src/api/services.cc:406-450 | one turn on a request with frames, no endpoint, another hypothesis and past the 350 ms: the result goes out if GetResults has one, a hypothesis without a transcript ends the run, and hypothesis and time are noted either way |
| Streaming.InterimCanRepeat | src/api/services.cc:416-437 | when GetResults has nothing to show for one request between two, the same hypothesis can be sent twice in a row |
| Streaming.NeverRepeatsExactly | src/api/services.cc:416-437 | for given answers of GetResults no behaviour of the rest makes the same best hypothesis go out twice in a row, if and only if no interim results are asked for or no request of the audio without an answer lies between two with one |
| Streaming.ElapsedLag | src/api/services.cc:383-386 | the time counted never exceeds the exact time of the samples and lags it by less than one millisecond per request |
| Streaming.RunSegment | src/api/services.cc:361-442 | the inner loop does the transition system's steps up to the end of a segment or an early return |
| Streaming.SendInterim | src/api/services.cc:408-440 | the interim block does the system's interim step |
| Streaming.SendFinal | src/api/services.cc:449-481 | the final block does the system's closing step |
| Streaming.RunStreamingProcessor | src/api/services.cc:293-487 | status, writes, and which requests were decoded and which skipped, are those of the transition system's run |
| TimingWeight.SemiringLaws | src/itn/maxmin-weight.h:62-93 | the product weight is a commutative, idempotent semiring with the declared unit and zero |
| TimingWeight.DivideSolves | src/itn/maxmin-weight.h:105-115 | division solves its equation exactly when a solution exists |
| TimingWeight.SpanIsHull | src/itn/timing-weight.h:27-36 | a product of intervals is their hull: both bounds attained, none passed |
| TimingWeight.SpanJoin | src/itn/timing-weight.h:27-36 | products of adjacent stretches multiply to the product of the whole |
| Converters.ConvertToByteFst | src/itn/converters.cc:50-83 | the arcs are each word's bytes followed by a space that carries its times |
| Converters.Convert | src/itn/converters.cc:160-219 | the loop computes the fold of the reading step over the arcs |
| Converters.WordsSpellOutput | src/itn/converters.cc:183-203 | for any linear FST the words, each followed by a space, are the non-epsilon output bytes up to the last space |
| Converters.ConvertTimes | src/itn/converters.cc:175-214 | no word is left without times exactly when the weights come in time; then word j's times are the hull of the weights that come after those of word j-1 up to its own space, or of the next weight when there is none |
| Converters.OwnWeightsAreTimely | src/itn/converters.cc:184-198 | if every word has a weight of its own, the weights come in time |
| Converters.GrowingIsTimely | src/itn/converters.cc:184-198 | the same by counting: if at each space more weights have been read than at the space before, the weights come in time |
| Converters.LateWeightIsLost | src/itn/converters.cc:189-213 | a concrete FST where the look-ahead leaves one word without times and overwrites another's |
| Converters.ByteFstRoundTrip | src/itn/converters.cc:50-219 | writing words to a byte FST and reading them back is the identity exactly when no word holds a space or a zero byte |
| Formatter.FormatWords | src/itn/formatter.cc:102-123 | nothing without a rewrite; else the result spells the rewrite's output up to its last space, and when the output ends there every word has times exactly when the weights come in time, and then spans the hull of the input words consumed to their ends while it was written, or of the next one when there are none |
| Formatter.ComposedWeights | src/itn/formatter.cc:117-120 | composition leaves exactly the words' intervals, in order |
| Formatter.RewritesExactly | src/itn/formatter.cc:102-123 | a path is a rewrite of the words exactly when the input bytes of its steps are the words' bytes |
| Formatter.EndsAreEnded | src/itn/formatter.cc:117-123 | the weights read when an output space is reached are as many as the input words the path has consumed to their ends there |
| Formatter.FormatKeepsTime | src/itn/formatter.cc:102-123 | every output word has times exactly when the weights come in time; then it spans the hull of its group, the consecutive non-empty groups use up the input words, and group j reaches to the last input word consumed to its end when output word j is complete, or one further when none has been since group j-1 |
| Formatter.GroupsDetermined | src/itn/formatter.cc:102-123 | path and words leave only one way to group |
| Formatter.OwnSpacesKeepTime | src/itn/formatter.cc:102-123 | the weights come in time when every output word consumes the closing space of an input word while it is written |
| Formatter.OwnSpacesMeanOwnGroups | src/itn/formatter.cc:102-123 | that is exactly when every output word's group is the input words that ended while it was written |
| Formatter.OverallHullKept | src/itn/formatter.cc:102-123 | earliest start and latest end of the output words are those of the input words |
| Formatter.FormatKeepsText | src/itn/formatter.cc:102-123 | the output words, each followed by a space, are exactly the rewrite's output bytes up to the last space |
| Formatter.InsertedSpaceLosesTime | src/itn/formatter.cc:102-123 | a rewrite that puts a space inside a word: its weights do not come in time, and the first output word has no times |
| WordPiece.LongestMatch | src/itn/wordpiece.cc:54-66 | the match found is in the vocabulary, and no longer piece from the same position is |
| WordPiece.SplitSpellsWord | src/itn/wordpiece.cc:50-73 | a split begins with a known prefix of the word, goes on with marked continuations and spells the word |
| WordPiece.SplitIsGreedy | src/itn/wordpiece.cc:50-73 | a word is split into given pieces exactly when they run between cuts through the whole word, each known and no longer piece from its cut known, and is not split exactly when such cuts come to a place where no piece is known |
| WordPiece.PiecesAreTokenized | src/itn/wordpiece.cc:41-85 | a word becomes the unknown token when it is over the limit or the greedy cuts get stuck, and otherwise the pieces of the greedy cuts |
| WordPiece.OnlyLengthMakesUnknown | src/itn/wordpiece.cc:45-77 | with every byte and its marked form known, a word is unknown exactly when it is over the length limit |
| WordPiece.PiecesAreKnown | src/itn/wordpiece.cc:41-85 | every piece is in the vocabulary or is the unknown token |
| WordPiece.WordPieceTokenizer.constructor | src/itn/wordpiece.cc:26-39 | the vocabulary is the lines read, and the id of a repeated line is its last |
| WordPiece.WordPieceTokenizer.SplitWord | src/itn/wordpiece.cc:50-73 | the nested loops find the pieces of the greedy longest cuts through the word, or none exactly when these get stuck |
| WordPiece.WordPieceTokenizer.Tokenize | src/itn/wordpiece.cc:41-85 | the pieces are those of the words, one list after the other, each list the greedy cuts of its word or the unknown token |
| WordPiece.WordPieceTokenizer.Merge | src/itn/wordpiece.cc:91-105 | the loop appends continuations to the word before and fails when there is none |
| WordPiece.OpensExactly | src/itn/wordpiece.cc:41-89 | which words begin with an opening piece, from word and vocabulary: an unknown one when the unknown token is no continuation, any other when it is not empty and, if it looks like a continuation, no prefix of it that shows the mark is known |
| WordPiece.OrdinaryWordOpens | src/itn/wordpiece.cc:87-89 | a non-empty word that is not itself marked as a continuation begins with an opening piece |
| WordPiece.MergedLength | src/itn/wordpiece.cc:91-105 | merging throws exactly when the first piece is a continuation, and otherwise yields one word per opening piece |
| WordPiece.MergeTokenizeRoundTrip | src/itn/wordpiece.cc:41-105 | merging gives one entry per word exactly when every word begins with an opening piece, which OpensExactly decides from the words; entry i is then word i or the unknown token |
| WordPiece.MarkedWordIsLost | src/itn/wordpiece.cc:87-105 | a word that the vocabulary lists as a continuation makes merging throw |
| WordPiece.TokensSurviveIds | src/itn/wordpiece.cc:115-131 | tokens converted to ids and back are the same, repeated vocabulary lines or not |
| WordPiece.IdsSurviveTokens | src/itn/wordpiece.cc:115-131 | ids converted to tokens and back are the same exactly when none names a line repeated later |
| WordPiece.TokenizeToIdsIsTotal | src/itn/wordpiece.cc:107-113 | with the unknown token in the vocabulary every word list has ids, and they lead back to its pieces |
| Punctuation.ElectraPunctuator.Punctuate | src/itn/punctuation.cc:63-110 | the outcome is the words marked by their labels, or the failed lookup, or too few labels |
| Punctuation.ElectraPunctuator.PunctuateWithContext | src/itn/punctuation.cc:112-126 | the words come out as without context, the first capitalised when the context's last character is '.', '?' or '!'; with the unknown token known it is good exactly when every word begins with an opening piece and the context can be used |
| Punctuation.ElectraPunctuator.ContextSucceeds | src/itn/punctuation.cc:112-126 | the outcome is good exactly when besides the words opening the context's last word is not empty and, if it ends in '.', '?' or '!', there is a word to capitalise; it throws exactly when there is none |
| Punctuation.ElectraPunctuator.NoWordsAfterSentence | src/itn/punctuation.cc:121-123 | no words after the context "." throw |
| Punctuation.ElectraPunctuator.PunctuateSucceeds | src/itn/punctuation.cc:63-110 | with the unknown token known nothing is thrown, and the result is good exactly when every word begins with an opening piece |
| Punctuation.ElectraPunctuator.PunctuateThrowsExactly | src/itn/punctuation.cc:63-110 | without assuming the unknown token known: the lookup throws exactly when some word is unknown and the unknown token is not in the vocabulary |
| Punctuation.LabelsMatchWords | src/itn/punctuation.cc:87-95 | there are never more labels than words, and one per word exactly when every word begins with an opening piece |
| Punctuation.LabelOfWord | src/itn/punctuation.cc:87-95 | word i's label is the prediction at index 1 plus the number of pieces of all earlier words |
| Punctuation.ElectraPunctuator.PunctuatedWord | src/itn/punctuation.cc:29-110 | when every word begins with an opening piece, word i comes out as it was, or capitalised when the prediction at the first piece of word i-1 is 2 or 3, followed by "," when the prediction at its own first piece is 1, "." when 2, "?" when 3 and nothing otherwise |
| Punctuation.ElectraPunctuator.ModelSeesPieces | src/itn/punctuation.cc:63-95 | the model's input is the leading special token, the ids of all pieces in order and the trailing special token, and at the place a word's label is read it holds the word's first piece |
| Punctuation.SegmentwiseAgrees | src/itn/punctuation.cc:97-126 | segment-wise and whole punctuation agree exactly when the last word carries a mark, or does not end a sentence, or the next word has no capital form |
| Punctuation.SegmentwiseCanDiffer | src/itn/punctuation.cc:121-123 | an abbreviation closing a segment without a mark makes them differ |
| InputBuffer.InputBuffer.Open | src/audio/ffmpeg-wrapper.h:313-319 | opening fails exactly when the stream delivers nothing, else nothing of the stream is lost |
| InputBuffer.InputBuffer.Empty | src/audio/ffmpeg-wrapper.h:331-334 | empty exactly when nothing remains, that is when the window is empty |
| InputBuffer.InputBuffer.ReadMore | src/audio/ffmpeg-wrapper.h:373-384 | afterwards the window is full or the stream at its end, and what remains is unchanged |
| InputBuffer.InputBuffer.ShiftLeft | src/audio/ffmpeg-wrapper.h:355-359 | the overlapping left copy moves the window unchanged to the front |
| InputBuffer.InputBuffer.Forward | src/audio/ffmpeg-wrapper.h:343-363 | consuming n bytes leaves exactly the rest, keeps the window a slice of the stream inside the buffer, and reads more, until the window is full or the stream at its end, exactly when fewer bytes than the threshold are left |
| InputBuffer.ReadPacket | src/audio/ffmpeg-wrapper.h:505-515 | EOF exactly when nothing remains, else the next bytes of the stream, as many as the window holds or the caller asked for, whichever is fewer |
| InputBuffer.EofIsTag | src/audio/ffmpeg-wrapper.h:505-515 | the end-of-file value is minus the four-character tag EOF and a space |
| InputBuffer.ReadToEnd | src/audio/ffmpeg-wrapper.h:505-515 | repeated callbacks deliver exactly the stream and then EOF |
| ThreadSafeQueue.MutualExclusion | src/queue-inl.h:11-25 | at most one thread is in a critical section in any reachable state |
| ThreadSafeQueue.NoLostWakeup | src/queue-inl.h:10-35 | while a consumer sleeps the queue is no longer than notifications to come plus consumers awake inside blocking_pop |
| ThreadSafeQueue.FirstInFirstOut | src/queue-inl.h:10-35 | items popped followed by items queued are the items pushed, and a returning consumer holds the one it dequeued |
| ThreadSafeQueue.PushThenPop | src/queue-inl.h:10-35 | with the mutex free and nobody asleep, a thread outside can push to an empty queue and a thread outside can then pop the item |
| ThreadSafeQueue.PopSleeps | src/queue-inl.h:10-16 | a thread outside can pop from an empty queue when the mutex is free, and then sleeps with the mutex free again |
| ThreadSafeQueue.PushServesSleeper | src/queue-inl.h:10-35 | a push can wake a sleeping consumer, which then gets the item |
| ThreadSafeQueue.SleeperMayWake | src/queue-inl.h:10-16 | a sleeping consumer can wake without a push, and is then back at the mutex |
| ThreadSafeQueue.QuiescentIsAtRest | src/queue-inl.h:10-35 | where no thread can go on, everyone is outside or asleep, and items are queued only if nobody sleeps |
| ThreadSafeQueue.RestDelivers | src/queue-inl.h:10-35 | at rest the fewer of pushes and pops have been handed out, the first items pushed |
| ThreadSafeQueue.RunIsBounded | src/queue-inl.h:10-35 | the steps threads take by themselves are bounded by what the calls and spurious wakeups bring in |
| ThreadSafeQueue.ComesToRest | src/queue-inl.h:10-35 | from any state the threads' own steps are bounded, and however they begin they can be continued to a state of rest |
| AudioSource.ChunksCoverData | src/audio/audio-source.cc:73-83 | the chunks are non-empty, join up to the data, hold 400 samples each but for a last one that may be short, and their number is the rounded-up quotient |
| AudioSource.ContentAudioSource.NextChunk | src/audio/audio-source.cc:77-83 | call k delivers the data's k-th chunk |
| AudioSource.ContentAudioSource.ChunksSeen | src/audio/audio-source.h:118-120 | equals the number of NextChunk calls, as the interface promises |
| AudioSource.FileAudioSource.NextChunk | src/audio/audio-source.cc:163-168 | call k delivers the same chunk as the content source |
| AudioSource.FileAudioSource.ChunksSeen | src/audio/audio-source.cc:170-172 | equals the number of calls exactly while there is more or the data divides evenly; else one less |
| AudioSource.ShortChunkIsMissed | src/audio/audio-source.cc:163-172 | on a file of one sample the count after the one call is zero |
| AudioSource.DecodeAll | src/api/services.cc:187-192 | the loop makes one decode call per chunk in order |
| AudioSource.DecodeFile | src/audio/audio-source.cc:163-172 | the same loop over a file makes the same calls and ends with nothing left |
| AudioSource.DecodedIsWholeAudio | src/api/services.cc:187-192 | the decode calls carry every sample once in order, none empty, and exactly the last one flushes |

## Left out

- Kaldi decoding, PLDA scoring, clustering, the embedding network and the Torch model: foreign numerics; arbitrary functions here.
- OpenFst composition, shortest path and sorting in general: only composition of a linear byte string with one linear path, whose input side is the string.
- The rewrite grammars, the look-ahead formatter and the lexicon: library calls and finite tables.
- `UriAudioSource` and `StreamingUriAudioSource`: they depend on stream-buffer and FFmpeg behaviour.
- Request validation, options, logging, model loading, server start-up, the clients and the gateway: one-branch checks and plumbing.
- Rounding of `float` and overflow of 32-bit integers: times, weights and counters are integers, proportions and frame shifts are reals.
- Case mapping: an arbitrary function that commutes with appending a mark and keeps sentence ends; the laws are shown to hold of ASCII capitalisation.
- ThreadSafeQueue.NoLostWakeup: modelled on values, since methods cannot be interleaved; the mutex, the condition variable and each thread's position are parts of the state.
- Streaming.RunStreamingProcessor: reads, writes, clock and recogniser are oracles, so the resampler and the adaptation state are not modelled, and a write's effect is only its success.
- Converters.ConvertTimes: a cast of an infinite weight yields an undefined time that a later weight may replace; the undefined behaviour itself has no further effect.
- Formatter.FormatKeepsTime: words with zero bytes have no rewrite path in the model, since label 0 is epsilon.
- InputBuffer.InputBuffer.Forward: a left copy onto itself, when nothing was consumed at offset 0, is taken as the harmless copy it is in practice.
