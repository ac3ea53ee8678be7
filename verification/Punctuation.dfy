/** Punctuation and capitalisation of src/itn/punctuation.cc.  The model is an arbitrary function
    from input ids to one predicted label per input id; case mapping is an arbitrary function that
    satisfies CapitalizeLaws where a result needs it. */
module Punctuation {
  import opened Utils
  import opened WordPiece

  /** Throws: the vocabulary lookup fails.  OutOfRange: an element past the end is read. */
  datatype Outcome = Ok(words: seq<string>) | Throws | OutOfRange

  /** Labels are O, COMMA, PERIOD and QUESTIONMARK; any other id, negative ones included since the
      comparison is unsigned, writes nothing. */
  function IdToChar(id: int): string
  {
    if id == 1 then "," else if id == 2 then "." else if id == 3 then "?" else ""
  }

  predicate ShouldCapitalizeNext(id: int) { id == 2 || id == 3 }

  predicate EndsSentence(word: string)
  {
    word != "" && word[|word| - 1] in {'.', '?', '!'}
  }

  /** What the results below assume of Capitalize: it commutes with appending a mark and neither
      creates nor removes the end of a sentence. */
  ghost predicate CapitalizeLaws(cap: string -> string)
  {
    && (forall w, c :: w != "" && c in {',', '.', '?'} ==> cap(w + [c]) == cap(w) + [c])
    && (forall w :: w != "" ==> cap(w) != "" && (EndsSentence(cap(w)) <==> EndsSentence(w)))
  }

  // ---------------------------------------------------------------- reference

  function HeadPredictionsUpTo(pieces: seq<string>, preds: seq<int>, n: nat): seq<int>
    requires n <= |pieces| && |preds| == |pieces| + 2
  {
    if n == 0 then []
    else HeadPredictionsUpTo(pieces, preds, n - 1) + if IsSubword(pieces[n - 1]) then [] else [preds[n]]
  }

  /** The predictions at the pieces that begin a word; index 0 belongs to the leading special token. */
  function HeadPredictions(pieces: seq<string>, preds: seq<int>): seq<int>
    requires |preds| == |pieces| + 2
  {
    HeadPredictionsUpTo(pieces, preds, |pieces|)
  }

  /** Where word i's first piece stands in the model's input: after the leading special token and the
      pieces of all earlier words. */
  function HeadIndex(d: Dict, words: seq<string>, i: nat): nat
    requires i <= |words|
  {
    1 + |JoinUpTo(PieceLists(d, words), i)|
  }

  /** A word with its own mark, capitalised when the mark before it ends a sentence. */
  function MarkedWord(word: string, before: int, mark: int, capitalize: bool, cap: string -> string): string
  {
    (if capitalize && ShouldCapitalizeNext(before) then cap(word) else word) + IdToChar(mark)
  }

  /** The mark before word i; label 0, which capitalises nothing, before the first. */
  function Before(marks: seq<int>, i: nat): int
    requires i <= |marks|
  {
    if i == 0 then 0 else marks[i - 1]
  }

  function Marked(words: seq<string>, marks: seq<int>, capitalize: bool, cap: string -> string): (r: seq<string>)
    requires |words| <= |marks|
    ensures |r| == |words|
  {
    seq(|words|, i requires 0 <= i < |words| =>
      MarkedWord(words[i], Before(marks, i), marks[i], capitalize, cap))
  }

  /** What Punctuate does with the labels, None when the vocabulary lookup failed. */
  function PunctuateOutcome(words: seq<string>, labels: Option<seq<int>>, capitalize: bool,
                            cap: string -> string): Outcome
  {
    if labels.None? then Throws
    else if |labels.value| < |words| then OutOfRange
    else Ok(Marked(words, labels.value, capitalize, cap))
  }

  /** The end of the left context decides whether the first word is capitalised. */
  function InContext(o: Outcome, leftContext: seq<string>, capitalize: bool, cap: string -> string): Outcome
  {
    if !o.Ok? || !capitalize || leftContext == [] then o
    else if leftContext[|leftContext| - 1] == "" then OutOfRange
    else if !EndsSentence(leftContext[|leftContext| - 1]) then o
    else if o.words == [] then Throws
    else Ok(o.words[0 := cap(o.words[0])])
  }

  /** The left context can be used: its last word is there to be looked at, and if it ends a sentence
      there is a word to capitalise. */
  predicate ContextFits(words: seq<string>, leftContext: seq<string>, capitalize: bool)
  {
    capitalize && leftContext != [] ==>
      var last := leftContext[|leftContext| - 1];
      last != "" && (last[|last| - 1] in {'.', '?', '!'} ==> words != [])
  }

  /** The words after a context: as without it, but for a capital in the first word when the context's
      last character is '.', '?' or '!'. */
  ghost predicate ContextKept(plain: seq<string>, words: seq<string>, leftContext: seq<string>, capitalize: bool,
                              cap: string -> string)
  {
    && |words| == |plain|
    && (forall i :: 0 < i < |words| ==> words[i] == plain[i])
    && (words != [] ==>
          var upper := capitalize && leftContext != [] && leftContext[|leftContext| - 1] != ""
                       && var last := leftContext[|leftContext| - 1]; last[|last| - 1] in {'.', '?', '!'};
          words[0] == if upper then cap(plain[0]) else plain[0])
  }

  // ---------------------------------------------------------------- alignment

  lemma {:induction false} OnePredictionPerHead(pieces: seq<string>, preds: seq<int>, n: nat)
    requires n <= |pieces| && |preds| == |pieces| + 2
    ensures |HeadPredictionsUpTo(pieces, preds, n)| == Heads(pieces[..n])
  {
    if n > 0 {
      OnePredictionPerHead(pieces, preds, n - 1);
      assert pieces[..n][..n - 1] == pieces[..n - 1];
    }
  }

  /** There is exactly one label per word exactly when every word opens, so that is exactly when the
      labels suffice; otherwise there are too few. */
  lemma LabelsMatchWords(d: Dict, words: seq<string>, preds: seq<int>)
    requires |preds| == |AllPieces(d, words)| + 2
    ensures |HeadPredictions(AllPieces(d, words), preds)| <= |words|
    ensures |HeadPredictions(AllPieces(d, words), preds)| == |words| <==> AllOpen(d, words)
  {
    var pieces := AllPieces(d, words);
    OnePredictionPerHead(pieces, preds, |pieces|);
    assert pieces[..|pieces|] == pieces;
    HeadsAtMostWords(d, words);
  }

  /** The word with the mark for a label: COMMA is 1, PERIOD is 2 and QUESTIONMARK is 3. */
  ghost predicate HasMark(out: string, word: string, id: int)
  {
    && (id == 1 ==> out == word + ",")
    && (id == 2 ==> out == word + ".")
    && (id == 3 ==> out == word + "?")
    && (id < 1 || id > 3 ==> out == word)
  }

  lemma MarkForLabel(word: string, id: int)
    ensures HasMark(word + IdToChar(id), word, id)
  {
    assert word + "" == word;
  }

  lemma MarkedHasMark(words: seq<string>, labels: seq<int>, capitalize: bool, cap: string -> string, i: nat)
    requires i < |words| <= |labels|
    ensures HasMark(Marked(words, labels, capitalize, cap)[i],
                    if capitalize && i > 0 && labels[i - 1] in {2, 3} then cap(words[i]) else words[i], labels[i])
  {
    MarkForLabel(if capitalize && i > 0 && labels[i - 1] in {2, 3} then cap(words[i]) else words[i], labels[i]);
  }

  /** Word i comes out with the mark predicted at its first piece, and capitalised exactly when asked
      for and the prediction at the first piece of the word before it is PERIOD or QUESTIONMARK. */
  ghost predicate MarkedByHeads(d: Dict, words: seq<string>, preds: seq<int>, capitalize: bool,
                                cap: string -> string, i: nat, out: string)
    requires i < |words|
  {
    && (i > 0 ==> HeadIndex(d, words, i - 1) < |preds|)
    && HeadIndex(d, words, i) < |preds|
    && var upper := capitalize && i > 0 && preds[HeadIndex(d, words, i - 1)] in {2, 3};
       HasMark(out, if upper then cap(words[i]) else words[i], preds[HeadIndex(d, words, i)])
  }

  lemma {:induction false} ContinuationsAddNothing(pieces: seq<string>, preds: seq<int>, m: nat, n: nat)
    requires |preds| == |pieces| + 2 && m <= n <= |pieces|
    requires forall k :: m <= k < n ==> IsSubword(pieces[k])
    ensures HeadPredictionsUpTo(pieces, preds, n) == HeadPredictionsUpTo(pieces, preds, m)
  {
    if m < n { ContinuationsAddNothing(pieces, preds, m, n - 1); }
  }

  /** One more opening word adds exactly one label: the prediction at its first piece. */
  lemma WordAddsLabel(lists: seq<seq<string>>, preds: seq<int>, n: nat)
    requires n < |lists| && OpensWord(lists[n]) && Shaped(lists[n]) && |preds| == |Join(lists)| + 2
    ensures var all, m, m' := Join(lists), |JoinUpTo(lists, n)|, |JoinUpTo(lists, n + 1)|;
      && m < m' <= |all|
      && HeadPredictionsUpTo(all, preds, m') == HeadPredictionsUpTo(all, preds, m) + [preds[m + 1]]
  {
    var all, p, upTo := Join(lists), lists[n], JoinUpTo(lists, n + 1);
    JoinGrows(lists, n + 1, |lists|);
    var m := |JoinUpTo(lists, n)|;
    assert all[m] == upTo[m] == p[0];
    forall k | m + 1 <= k < |upTo| ensures IsSubword(all[k]) {
      assert all[k] == upTo[k] == p[k - m];
    }
    ContinuationsAddNothing(all, preds, m + 1, |upTo|);
  }

  /** The labels of the first n words, and which prediction label i is. */
  lemma {:induction false} LabelAmongFirst(lists: seq<seq<string>>, preds: seq<int>, n: nat, i: nat)
    requires forall k {:trigger lists[k]} :: 0 <= k < |lists| ==> OpensWord(lists[k]) && Shaped(lists[k])
    requires |preds| == |Join(lists)| + 2 && n <= |lists|
    ensures |JoinUpTo(lists, n)| <= |Join(lists)|
    ensures var labels := HeadPredictionsUpTo(Join(lists), preds, |JoinUpTo(lists, n)|);
      && |labels| == n
      && (i < n ==> |JoinUpTo(lists, i)| < |Join(lists)| && labels[i] == preds[1 + |JoinUpTo(lists, i)|])
  {
    if n > 0 {
      LabelAmongFirst(lists, preds, n - 1, i);
      WordAddsLabel(lists, preds, n - 1);
    }
  }

  /** Word i's label is the prediction at its own first piece. */
  lemma LabelOfWord(d: Dict, words: seq<string>, preds: seq<int>, i: nat)
    requires AllOpen(d, words) && |preds| == |AllPieces(d, words)| + 2 && i < |words|
    ensures var labels := HeadPredictions(AllPieces(d, words), preds);
      && |labels| == |words|
      && HeadIndex(d, words, i) <= |AllPieces(d, words)|
      && labels[i] == preds[HeadIndex(d, words, i)]
  {
    var lists := PieceLists(d, words);
    ListsAreShaped(d, words);
    forall k | 0 <= k < |words| ensures OpensWord(lists[k]) {
      assert Opens(d, words[k]);
    }
    LabelAmongFirst(lists, preds, |words|, i);
  }

  lemma WordMarkedByHeads(d: Dict, words: seq<string>, preds: seq<int>, capitalize: bool,
                          cap: string -> string, i: nat)
    requires AllOpen(d, words) && |preds| == |AllPieces(d, words)| + 2 && i < |words|
    requires |HeadPredictions(AllPieces(d, words), preds)| == |words|
    ensures var labels := HeadPredictions(AllPieces(d, words), preds);
      MarkedByHeads(d, words, preds, capitalize, cap, i, Marked(words, labels, capitalize, cap)[i])
  {
    var labels := HeadPredictions(AllPieces(d, words), preds);
    LabelOfWord(d, words, preds, i);
    if i > 0 { LabelOfWord(d, words, preds, i - 1); }
    MarkedHasMark(words, labels, capitalize, cap, i);
  }

  /** A list's first piece stands right after all pieces of the lists before it. */
  lemma FirstPieceAt(lists: seq<seq<string>>, i: nat)
    requires i < |lists| && lists[i] != []
    ensures |JoinUpTo(lists, i)| < |Join(lists)| && Join(lists)[|JoinUpTo(lists, i)|] == lists[i][0]
  {
    JoinGrows(lists, i + 1, |lists|);
    assert JoinUpTo(lists, i + 1)[|JoinUpTo(lists, i)|] == lists[i][0];
  }

  /** An unknown token that is not in the vocabulary comes only from unknown words. */
  lemma OnlyUnknownWords(d: Dict, words: seq<string>)
    requires d.unk in AllPieces(d, words) && d.unk !in d.known
    ensures exists i :: 0 <= i < |words| && IsUnknown(d, words[i])
  {
    if forall i :: 0 <= i < |words| ==> !IsUnknown(d, words[i]) {
      var lists := PieceLists(d, words);
      forall i | 0 <= i < |lists| ensures forall p :: p in lists[i] ==> p in d.known {
        if words[i] != "" { SplitSpellsWord(d, words[i]); }
      }
      JoinContents(lists, |lists|, d.known);
      assert false;
    }
  }

  // ---------------------------------------------------------------- the source's class

  function AsInts(ids: seq<nat>): seq<int> { seq(|ids|, i requires 0 <= i < |ids| => ids[i] as int) }

  class ElectraPunctuator {
    const tokenizer: WordPieceTokenizer
    const clsTokenId: int
    const sepTokenId: int
    const model: seq<int> -> seq<int>
    const cap: string -> string

    constructor (tokenizer: WordPieceTokenizer, clsTokenId: int, sepTokenId: int,
                 model: seq<int> -> seq<int>, cap: string -> string)
      requires tokenizer.Valid() && forall ids :: |model(ids)| == |ids|
      ensures Valid() && this.tokenizer == tokenizer && this.model == model && this.cap == cap
      ensures this.clsTokenId == clsTokenId && this.sepTokenId == sepTokenId
    {
      this.tokenizer, this.clsTokenId, this.sepTokenId := tokenizer, clsTokenId, sepTokenId;
      this.model, this.cap := model, cap;
    }

    ghost predicate Valid()
    {
      tokenizer.Valid() && forall ids :: |model(ids)| == |ids|
    }

    /** The ids given to the model for a list of pieces. */
    ghost function InputIds(ids: seq<nat>): seq<int>
    {
      [clsTokenId] + AsInts(ids) + [sepTokenId]
    }

    /** The labels the words get, one per piece that begins a word; None when a piece has no id. */
    ghost function Labels(words: seq<string>): Option<seq<int>>
      requires Valid()
    {
      var pieces := AllPieces(tokenizer.Dictionary(), words);
      var ids := IdsOf(tokenizer.vocabMap, pieces);
      if ids.None? then None
      else Some(HeadPredictions(pieces, model(InputIds(ids.value))))
    }

    method Punctuate(words: seq<string>, capitalize: bool) returns (r: Outcome)
      requires Valid()
      ensures r == PunctuateOutcome(words, Labels(words), capitalize, cap)
    {
      var wordPieces := tokenizer.Tokenize(words);
      var ids := tokenizer.TokensToIds(wordPieces);
      if ids.None? {
        return Throws;
      }
      var inputIds: seq<int> := [clsTokenId];
      for k := 0 to |ids.value|
        invariant inputIds == [clsTokenId] + AsInts(ids.value[..k])
      {
        assert ids.value[..k + 1] == ids.value[..k] + [ids.value[k]];
        inputIds := inputIds + [ids.value[k]];
      }
      assert ids.value[..|ids.value|] == ids.value;
      inputIds := inputIds + [sepTokenId];
      var predIds := model(inputIds);
      var punctuation: seq<int> := [];
      for idx := 0 to |wordPieces|
        invariant punctuation == HeadPredictionsUpTo(wordPieces, predIds, idx)
      {
        var charId := predIds[idx + 1];
        if !IsSubword(wordPieces[idx]) {
          punctuation := punctuation + [charId];
        }
      }
      r := Assemble(words, punctuation, capitalize);
    }

    /** The loop that writes marks and capitals into a copy of the words. */
    method Assemble(words: seq<string>, punctuation: seq<int>, capitalize: bool) returns (r: Outcome)
      ensures r == PunctuateOutcome(words, Some(punctuation), capitalize, cap)
    {
      var outputWords := words;
      var capitalizeNext := false;
      for idx := 0 to |outputWords|
        invariant |outputWords| == |words| && idx <= |punctuation|
        invariant capitalizeNext <==> capitalize && ShouldCapitalizeNext(Before(punctuation, idx))
        invariant forall k :: 0 <= k < idx ==>
          outputWords[k] == MarkedWord(words[k], Before(punctuation, k), punctuation[k], capitalize, cap)
        invariant forall k :: idx <= k < |words| ==> outputWords[k] == words[k]
      {
        if |punctuation| <= idx {
          return OutOfRange;
        }
        var word := outputWords[idx];
        if capitalize {
          if capitalizeNext {
            word := cap(word);
          }
          capitalizeNext := ShouldCapitalizeNext(punctuation[idx]);
        }
        outputWords := outputWords[idx := word + IdToChar(punctuation[idx])];
      }
      assert outputWords == Marked(words, punctuation, capitalize, cap);
      return Ok(outputWords);
    }

    /** Outcomes in the caller's terms: with the unknown token in the vocabulary nothing is thrown,
        and the result is good exactly when every word opens with a piece that is no continuation. */
    lemma PunctuateSucceeds(words: seq<string>, capitalize: bool)
      requires Valid() && tokenizer.unkToken in tokenizer.vocab
      ensures var o := PunctuateOutcome(words, Labels(words), capitalize, cap);
        && !o.Throws?
        && (o.Ok? <==> AllOpen(tokenizer.Dictionary(), words))
    {
      TokenizeToIdsIsTotal(tokenizer.vocab, tokenizer.vocabMap, tokenizer.unkToken,
                           tokenizer.maxInputCharsPerWord, words);
      var pieces := AllPieces(tokenizer.Dictionary(), words);
      var ids := IdsOf(tokenizer.vocabMap, pieces).value;
      LabelsMatchWords(tokenizer.Dictionary(), words, model(InputIds(ids)));
    }

    /** In general a lookup fails exactly when some word is unknown and the unknown token is, too. */
    lemma PunctuateThrowsExactly(words: seq<string>, capitalize: bool)
      requires Valid()
      ensures PunctuateOutcome(words, Labels(words), capitalize, cap).Throws?
        <==> tokenizer.unkToken !in tokenizer.vocab
             && exists i :: 0 <= i < |words| && IsUnknown(tokenizer.Dictionary(), words[i])
    {
      var d := tokenizer.Dictionary();
      var pieces, lists := AllPieces(d, words), PieceLists(d, words);
      PiecesAreKnown(d, words);
      if i :| 0 <= i < |words| && IsUnknown(d, words[i]) {
        FirstPieceAt(lists, i);
        assert pieces[|JoinUpTo(lists, i)|] == d.unk;
      }
      if d.unk in pieces && d.unk !in d.known {
        OnlyUnknownWords(d, words);
      }
    }

    /** With a left context the result is good exactly when, besides, the context can be used; where it
        cannot although every word opens, an empty word list throws. */
    lemma ContextSucceeds(words: seq<string>, leftContext: seq<string>, capitalize: bool)
      requires Valid() && tokenizer.unkToken in tokenizer.vocab
      ensures var o := InContext(PunctuateOutcome(words, Labels(words), capitalize, cap), leftContext, capitalize, cap);
        && (o.Ok? <==> AllOpen(tokenizer.Dictionary(), words) && ContextFits(words, leftContext, capitalize))
        && (o.Throws? <==>
              capitalize && words == [] && leftContext != [] && EndsSentence(leftContext[|leftContext| - 1]))
      ensures var plain := PunctuateOutcome(words, Labels(words), capitalize, cap);
        var o := InContext(plain, leftContext, capitalize, cap);
        o.Ok? ==> plain.Ok? && ContextKept(plain.words, o.words, leftContext, capitalize, cap)
    {
      PunctuateSucceeds(words, capitalize);
    }

    /** No words after a context that ends a sentence: nothing is there to be capitalised. */
    lemma NoWordsAfterSentence()
      requires Valid() && tokenizer.unkToken in tokenizer.vocab
      ensures InContext(PunctuateOutcome([], Labels([]), true, cap), ["."], true, cap).Throws?
    {
      ContextSucceeds([], ["."], true);
    }

    method PunctuateWithContext(words: seq<string>, leftContext: seq<string>, capitalize: bool) returns (r: Outcome)
      requires Valid()
      ensures r == InContext(PunctuateOutcome(words, Labels(words), capitalize, cap), leftContext, capitalize, cap)
      ensures tokenizer.unkToken in tokenizer.vocab ==>
        (r.Ok? <==> AllOpen(tokenizer.Dictionary(), words) && ContextFits(words, leftContext, capitalize))
    {
      if tokenizer.unkToken in tokenizer.vocab { ContextSucceeds(words, leftContext, capitalize); }
      r := Punctuate(words, capitalize);
      if !r.Ok? || !capitalize || leftContext == [] {
        return;
      }
      var last := leftContext[|leftContext| - 1];
      if last == "" {
        return OutOfRange;
      }
      if EndsSentence(last) {
        if r.words == [] {
          return Throws;
        }
        r := Ok(r.words[0 := cap(r.words[0])]);
      }
    }

    /** The model sees the leading special token, the id of each piece in order, and the trailing special
        token; so at a word's place it sees that word's first piece. */
    lemma ModelSeesPieces(words: seq<string>)
      requires Valid() && tokenizer.unkToken in tokenizer.vocab
      ensures var d := tokenizer.Dictionary();
        var pieces := AllPieces(d, words);
        var ids := IdsOf(tokenizer.vocabMap, pieces);
        && ids.Some?
        && var input := InputIds(ids.value);
           && |input| == |pieces| + 2 && input[0] == clsTokenId && input[|pieces| + 1] == sepTokenId
           && (forall k :: 0 <= k < |pieces| ==> IsIdOf(input[k + 1], pieces[k]))
           && forall i :: 0 <= i < |words| && Opens(d, words[i]) ==>
                HeadIndex(d, words, i) <= |pieces| && IsIdOf(input[HeadIndex(d, words, i)], PiecesOf(d, words[i])[0])
    {
      var d := tokenizer.Dictionary();
      var pieces, lists := AllPieces(d, words), PieceLists(d, words);
      TokenizeToIdsIsTotal(tokenizer.vocab, tokenizer.vocabMap, tokenizer.unkToken,
                           tokenizer.maxInputCharsPerWord, words);
      var ids := IdsOf(tokenizer.vocabMap, pieces).value;
      var input := InputIds(ids);
      forall k | 0 <= k < |pieces| ensures IsIdOf(input[k + 1], pieces[k]) {
        assert input[k + 1] == ids[k] && TokensOf(tokenizer.vocab, ids).value[k] == pieces[k];
      }
      forall i | 0 <= i < |words| && Opens(d, words[i])
        ensures HeadIndex(d, words, i) <= |pieces| && IsIdOf(input[HeadIndex(d, words, i)], PiecesOf(d, words[i])[0])
      {
        var n := |JoinUpTo(lists, i)|;
        FirstPieceAt(lists, i);
        assert IsIdOf(input[n + 1], pieces[n]);
      }
    }

    /** The vocabulary's line with this number is the piece. */
    ghost predicate IsIdOf(id: int, piece: string)
    {
      0 <= id < |tokenizer.vocab| && tokenizer.vocab[id] == piece
    }

    /** End to end: when every word opens, word i comes out as it was, or capitalised exactly when
        asked for and the model predicts PERIOD or QUESTIONMARK at the first piece of the word before
        it, followed by the mark the model predicts at its own first piece, if that is one. */
    lemma PunctuatedWord(words: seq<string>, capitalize: bool, i: nat)
      requires Valid() && tokenizer.unkToken in tokenizer.vocab
      requires AllOpen(tokenizer.Dictionary(), words) && i < |words|
      ensures var d := tokenizer.Dictionary();
        var ids := IdsOf(tokenizer.vocabMap, AllPieces(d, words));
        var o := PunctuateOutcome(words, Labels(words), capitalize, cap);
        && ids.Some? && o.Ok? && |o.words| == |words|
        && MarkedByHeads(d, words, model(InputIds(ids.value)), capitalize, cap, i, o.words[i])
    {
      PunctuateSucceeds(words, capitalize);
      var d := tokenizer.Dictionary();
      var preds := model(InputIds(IdsOf(tokenizer.vocabMap, AllPieces(d, words)).value));
      LabelsMatchWords(d, words, preds);
      WordMarkedByHeads(d, words, preds, capitalize, cap, i);
    }
  }

  // ---------------------------------------------------------------- segment-wise and batch

  /** A marked word ends a sentence when its mark does, or it has no mark and the word did already. */
  lemma MarkedEndsSentence(word: string, before: int, mark: int, cap: string -> string)
    requires CapitalizeLaws(cap) && word != ""
    ensures var out := MarkedWord(word, before, mark, true, cap);
      out != "" && (EndsSentence(out) <==> ShouldCapitalizeNext(mark) || (IdToChar(mark) == "" && EndsSentence(word)))
  {
    var base := if ShouldCapitalizeNext(before) then cap(word) else word;
    assert base + "" == base;
  }

  lemma CapitalizeMarked(word: string, mark: int, cap: string -> string)
    requires CapitalizeLaws(cap) && word != ""
    ensures cap(word + IdToChar(mark)) == cap(word) + IdToChar(mark)
  {
    assert word + "" == word && cap(word) + "" == cap(word);
  }

  lemma SameElements(x: seq<string>, y: seq<string>)
    requires |x| == |y| && forall i :: 0 <= i < |x| ==> x[i] == y[i]
    ensures x == y
  {
  }

  /** Inside the first part nothing of the second matters. */
  lemma FirstPart(a: seq<string>, ma: seq<int>, b: seq<string>, mb: seq<int>, cap: string -> string, i: nat)
    requires i < |a| == |ma| && |b| == |mb|
    ensures Marked(a + b, ma + mb, true, cap)[i] == Marked(a, ma, true, cap)[i]
  {
    assert (a + b)[i] == a[i] && (ma + mb)[i] == ma[i];
    assert Before(ma + mb, i) == Before(ma, i);
  }

  /** Inside the second part the first one's last label stands before the first word. */
  lemma SecondPart(a: seq<string>, ma: seq<int>, b: seq<string>, mb: seq<int>, cap: string -> string, i: nat)
    requires 0 < |a| == |ma| && i < |b| == |mb|
    ensures Marked(a + b, ma + mb, true, cap)[|a| + i]
         == MarkedWord(b[i], if i == 0 then ma[|a| - 1] else mb[i - 1], mb[i], true, cap)
  {
    var n := |a|;
    assert (a + b)[n + i] == b[i] && (ma + mb)[n + i] == mb[i];
    assert Before(ma + mb, n + i) == (ma + mb)[n + i - 1];
  }

  /** The whole comes out as the first part, then the second part with its first word marked in the
      light of the first part's last label. */
  lemma BatchSplits(a: seq<string>, ma: seq<int>, b: seq<string>, mb: seq<int>, cap: string -> string)
    requires 0 < |a| == |ma| && 0 < |b| == |mb|
    ensures Marked(a + b, ma + mb, true, cap)
         == Marked(a, ma, true, cap)
            + Marked(b, mb, true, cap)[0 := MarkedWord(b[0], ma[|a| - 1], mb[0], true, cap)]
  {
    var whole, first := Marked(a + b, ma + mb, true, cap), Marked(a, ma, true, cap);
    var second := Marked(b, mb, true, cap)[0 := MarkedWord(b[0], ma[|a| - 1], mb[0], true, cap)];
    var joined := first + second;
    forall i | 0 <= i < |whole| ensures whole[i] == joined[i] {
      if i < |a| {
        FirstPart(a, ma, b, mb, cap, i);
      } else {
        SecondPart(a, ma, b, mb, cap, i - |a|);
      }
    }
    SameElements(whole, joined);
  }

  lemma SameAfterUpdate(front: seq<string>, rest: seq<string>, x: string, y: string)
    requires rest != []
    ensures front + rest[0 := x] == front + rest[0 := y] <==> x == y
  {
    assert (front + rest[0 := x])[|front|] == x && (front + rest[0 := y])[|front|] == y;
  }

  lemma SameEnding(x: string, y: string, ending: string)
    ensures x + ending == y + ending <==> x == y
  {
    if x + ending == y + ending {
      assert |x| == |y| && x == (x + ending)[..|x|] && y == (y + ending)[..|y|];
    }
  }

  /** In context the first word is capitalised exactly when the context ends a sentence. */
  lemma SecondInContext(first: seq<string>, b: seq<string>, mb: seq<int>, cap: string -> string)
    requires CapitalizeLaws(cap) && first != [] && first[|first| - 1] != ""
    requires 0 < |b| == |mb| && b[0] != ""
    ensures var plain := Marked(b, mb, true, cap);
      InContext(Ok(plain), first, true, cap)
        == Ok(plain[0 := (if EndsSentence(first[|first| - 1]) then cap(b[0]) else b[0]) + IdToChar(mb[0])])
  {
    CapitalizeMarked(b[0], mb[0], cap);
    assert Marked(b, mb, true, cap)[0] == b[0] + IdToChar(mb[0]);
  }

  /** Punctuating segment by segment, each with the output before it as context, agrees with
      punctuating the whole at once exactly when the last word of the first segment carries a mark,
      or does not itself end like a sentence, or the next word has no capital form. */
  lemma SegmentwiseAgrees(a: seq<string>, ma: seq<int>, b: seq<string>, mb: seq<int>, cap: string -> string)
    requires CapitalizeLaws(cap)
    requires 0 < |a| == |ma| && 0 < |b| == |mb|
    requires a[|a| - 1] != "" && b[0] != ""
    ensures var first := Marked(a, ma, true, cap);
      var second := InContext(Ok(Marked(b, mb, true, cap)), first, true, cap);
      second.Ok? &&
      (first + second.words == Marked(a + b, ma + mb, true, cap)
       <==> IdToChar(ma[|a| - 1]) != "" || !EndsSentence(a[|a| - 1]) || cap(b[0]) == b[0])
  {
    var last := |a| - 1;
    var first, plain := Marked(a, ma, true, cap), Marked(b, mb, true, cap);
    var mark := IdToChar(mb[0]);
    MarkedEndsSentence(a[last], Before(ma, last), ma[last], cap);
    BatchSplits(a, ma, b, mb, cap);
    SecondInContext(first, b, mb, cap);
    SameEnding(cap(b[0]), b[0], mark);
    SameAfterUpdate(first, plain, (if EndsSentence(first[last]) then cap(b[0]) else b[0]) + mark,
                    MarkedWord(b[0], ma[last], mb[0], true, cap));
  }

  /** A case mapping that meets the laws, for ASCII letters. */
  function AsciiCapitalize(w: string): string
  {
    if w != "" && 'a' <= w[0] <= 'z' then [(w[0] as int - 'a' as int + 'A' as int) as char] + w[1..] else w
  }

  lemma AsciiCommutes(w: string, c: char)
    requires w != ""
    ensures AsciiCapitalize(w + [c]) == AsciiCapitalize(w) + [c]
  {
    assert (w + [c])[1..] == w[1..] + [c];
    assert (w + [c])[0] == w[0];
  }

  lemma AsciiKeepsEnd(w: string)
    requires w != ""
    ensures AsciiCapitalize(w) != "" && (EndsSentence(AsciiCapitalize(w)) <==> EndsSentence(w))
  {
    var out := AsciiCapitalize(w);
    assert |w| > 1 ==> out[|out| - 1] == w[|w| - 1];
  }

  lemma AsciiCapitalizeLaws()
    ensures CapitalizeLaws(AsciiCapitalize)
  {
    forall w: string, c: char | w != "" && c in {',', '.', '?'}
      ensures AsciiCapitalize(w + [c]) == AsciiCapitalize(w) + [c]
    {
      AsciiCommutes(w, c);
    }
    forall w: string | w != ""
      ensures AsciiCapitalize(w) != "" && (EndsSentence(AsciiCapitalize(w)) <==> EndsSentence(w))
    {
      AsciiKeepsEnd(w);
    }
  }

  /** The two ways do differ: an abbreviation that closes a segment without a mark capitalises the
      word after it only when the segments are punctuated one by one. */
  lemma SegmentwiseCanDiffer()
    ensures var first := Marked(["kl."], [0], true, AsciiCapitalize);
      first + InContext(Ok(Marked(["tolf"], [0], true, AsciiCapitalize)), first, true, AsciiCapitalize).words
        != Marked(["kl.", "tolf"], [0, 0], true, AsciiCapitalize)
  {
    AsciiCapitalizeLaws();
    SegmentwiseAgrees(["kl."], [0], ["tolf"], [0], AsciiCapitalize);
    assert AsciiCapitalize("tolf")[0] == 'T';
    assert ["kl."] + ["tolf"] == ["kl.", "tolf"] && [0] + [0] == [0, 0];
  }
}
