/** The WordPiece tokenizer of src/itn/wordpiece.cc.  A char stands for one byte of the source's
    strings: splitting is by bytes. */
module WordPiece {
  import opened Utils

  /** What splitting depends on: the known pieces, the unknown token and the length limit. */
  datatype Dict = Dict(known: set<string>, unk: string, limit: int)

  predicate IsSubword(token: string) { |token| > 2 && token[..2] == "##" }

  /** A piece as the vocabulary spells it: marked with "##" unless it begins the word. */
  function Spell(piece: string, start: nat): string { if start > 0 then "##" + piece else piece }

  // ------------------------------------------------- reference: longest match first

  /** End of the longest known piece from `start` that ends by `end`; `start` itself if there is none. */
  function LongestMatch(d: Dict, word: string, start: nat, end: nat): (e: nat)
    requires start <= end <= |word|
    ensures start <= e <= end
    ensures e > start ==> Spell(word[start..e], start) in d.known
    ensures forall k :: e < k <= end ==> Spell(word[start..k], start) !in d.known
  {
    if end == start then start
    else if Spell(word[start..end], start) in d.known then end
    else LongestMatch(d, word, start, end - 1)
  }

  /** Longest match first from `start` on; None when some position has no match. */
  function Split(d: Dict, word: string, start: nat): Option<seq<string>>
    requires start <= |word|
    decreases |word| - start
  {
    if start == |word| then Some([])
    else
      var e := LongestMatch(d, word, start, |word|);
      if e == start then None
      else
        var rest := Split(d, word, e);
        if rest.None? then None else Some([Spell(word[start..e], start)] + rest.value)
  }

  /** The word maps to the unknown token. */
  predicate IsUnknown(d: Dict, word: string) { |word| > d.limit || Split(d, word, 0).None? }

  function PiecesOf(d: Dict, word: string): seq<string>
  {
    if IsUnknown(d, word) then [d.unk] else Split(d, word, 0).value
  }

  /** The words' piece lists, one after the other: the first n of them, and all. */
  function JoinUpTo(lists: seq<seq<string>>, n: nat): seq<string>
    requires n <= |lists|
  {
    if n == 0 then [] else JoinUpTo(lists, n - 1) + lists[n - 1]
  }

  function Join(lists: seq<seq<string>>): seq<string> { JoinUpTo(lists, |lists|) }

  function PieceLists(d: Dict, words: seq<string>): (r: seq<seq<string>>)
    ensures |r| == |words|
  {
    seq(|words|, i requires 0 <= i < |words| => PiecesOf(d, words[i]))
  }

  function AllPieces(d: Dict, words: seq<string>): seq<string> { Join(PieceLists(d, words)) }

  function Attach(words: seq<string>, piece: string): Option<seq<string>>
  {
    if IsSubword(piece) then
      if words == [] then None
      else Some(words[|words| - 1 := words[|words| - 1] + piece[2..]])
    else Some(words + [piece])
  }

  /** Appends each continuation piece to the word before it; None where the source throws. */
  function Merged(pieces: seq<string>): Option<seq<string>>
  {
    if pieces == [] then Some([])
    else
      var n := |pieces| - 1;
      var before := Merged(pieces[..n]);
      if before.None? then None else Attach(before.value, pieces[n])
  }

  // ---------------------------------------------------------------- splitting

  /** `piece` spells the word between the two positions, with the continuation mark unless it begins the
      word; it is known, and nothing longer from there is. */
  ghost predicate IsLongestPiece(d: Dict, word: string, from: nat, to: nat, piece: string)
  {
    && from < to <= |word|
    && piece == (if from == 0 then word[from..to] else "##" + word[from..to])
    && piece in d.known
    && forall k :: to < k <= |word| ==> (if from == 0 then word[from..k] else "##" + word[from..k]) !in d.known
  }

  /** No piece from this position is known. */
  ghost predicate NothingKnown(d: Dict, word: string, from: nat)
  {
    from < |word|
    && forall k :: from < k <= |word| ==> (if from == 0 then word[from..k] else "##" + word[from..k]) !in d.known
  }

  /** The word is cut at the given positions, from the front, each time after the longest known piece. */
  ghost predicate Greedy(d: Dict, word: string, pieces: seq<string>, cuts: seq<nat>)
  {
    && |cuts| == |pieces| + 1 && cuts[0] == 0
    && forall i :: 0 <= i < |pieces| ==> IsLongestPiece(d, word, cuts[i], cuts[i + 1], pieces[i])
  }

  /** Greedy cuts go through the whole word. */
  ghost predicate CutsWord(d: Dict, word: string, pieces: seq<string>)
  {
    exists cuts :: Greedy(d, word, pieces, cuts) && cuts[|pieces|] == |word|
  }

  /** Greedy cuts reach a position from where nothing is known. */
  ghost predicate GetsStuck(d: Dict, word: string)
  {
    exists pieces, cuts :: Greedy(d, word, pieces, cuts) && NothingKnown(d, word, cuts[|pieces|])
  }

  function Prepend(front: seq<string>, rest: Option<seq<string>>): Option<seq<string>>
  {
    if rest.None? then None else Some(front + rest.value)
  }

  lemma PrependNothing(rest: Option<seq<string>>)
    ensures Prepend([], rest) == rest
  {
    if rest.Some? { assert [] + rest.value == rest.value; }
  }

  lemma PrependOne(front: seq<string>, piece: string, rest: Option<seq<string>>)
    ensures Prepend(front, Prepend([piece], rest)) == Prepend(front + [piece], rest)
  {
    if rest.Some? { assert front + ([piece] + rest.value) == front + [piece] + rest.value; }
  }

  lemma LongestIsMatch(d: Dict, word: string, from: nat, to: nat, piece: string)
    requires IsLongestPiece(d, word, from, to, piece)
    ensures LongestMatch(d, word, from, |word|) == to && piece == Spell(word[from..to], from)
  {
    var e := LongestMatch(d, word, from, |word|);
    assert Spell(word[from..to], from) == piece;
    assert e > from ==> Spell(word[from..e], from) in d.known;
  }

  /** Splitting goes along greedy cuts. */
  lemma {:induction false} SplitAlong(d: Dict, word: string, pieces: seq<string>, cuts: seq<nat>, n: nat)
    requires Greedy(d, word, pieces, cuts) && n <= |pieces|
    ensures cuts[n] <= |word| && Split(d, word, 0) == Prepend(pieces[..n], Split(d, word, cuts[n]))
  {
    if n == 0 {
      PrependNothing(Split(d, word, 0));
    } else {
      SplitAlong(d, word, pieces, cuts, n - 1);
      assert IsLongestPiece(d, word, cuts[n - 1], cuts[n - 1 + 1], pieces[n - 1]);
      LongestIsMatch(d, word, cuts[n - 1], cuts[n], pieces[n - 1]);
      PrependOne(pieces[..n - 1], pieces[n - 1], Split(d, word, cuts[n]));
      assert pieces[..n] == pieces[..n - 1] + [pieces[n - 1]];
      assert Split(d, word, cuts[n - 1]) == Prepend([pieces[n - 1]], Split(d, word, cuts[n]));
    }
  }

  lemma MatchIsLongest(d: Dict, word: string, from: nat)
    requires from < |word|
    ensures var to := LongestMatch(d, word, from, |word|);
      if to == from then NothingKnown(d, word, from)
      else IsLongestPiece(d, word, from, to, Spell(word[from..to], from))
  {
    var to := LongestMatch(d, word, from, |word|);
    forall k | to < k <= |word|
      ensures (if from == 0 then word[from..k] else "##" + word[from..k]) !in d.known
    {
      assert Spell(word[from..k], from) !in d.known;
    }
  }

  /** Greedy cuts can be carried on until the end of the word or a position where nothing is known. */
  lemma {:induction false} GreedyGoesOn(d: Dict, word: string, pieces: seq<string>, cuts: seq<nat>)
    requires Greedy(d, word, pieces, cuts) && cuts[|pieces|] <= |word|
    ensures GetsStuck(d, word) || exists all :: CutsWord(d, word, all)
    decreases |word| - cuts[|pieces|]
  {
    var from := cuts[|pieces|];
    if from == |word| {
      assert CutsWord(d, word, pieces);
    } else {
      MatchIsLongest(d, word, from);
      var to := LongestMatch(d, word, from, |word|);
      if to > from {
        var longer, further := pieces + [Spell(word[from..to], from)], cuts + [to];
        forall i | 0 <= i < |longer| ensures IsLongestPiece(d, word, further[i], further[i + 1], longer[i]) {
          if i < |pieces| {
            assert IsLongestPiece(d, word, cuts[i], cuts[i + 1], pieces[i]);
          }
        }
        GreedyGoesOn(d, word, longer, further);
      }
    }
  }

  lemma CutsAreSplit(d: Dict, word: string, pieces: seq<string>)
    requires CutsWord(d, word, pieces)
    ensures Split(d, word, 0) == Some(pieces)
  {
    var cuts :| Greedy(d, word, pieces, cuts) && cuts[|pieces|] == |word|;
    SplitAlong(d, word, pieces, cuts, |pieces|);
    assert pieces[..|pieces|] + [] == pieces;
  }

  lemma StuckIsNone(d: Dict, word: string)
    requires GetsStuck(d, word)
    ensures Split(d, word, 0).None?
  {
    var pieces, cuts :| Greedy(d, word, pieces, cuts) && NothingKnown(d, word, cuts[|pieces|]);
    var from := cuts[|pieces|];
    SplitAlong(d, word, pieces, cuts, |pieces|);
    assert LongestMatch(d, word, from, |word|) == from;
  }

  /** Splitting succeeds with the pieces of the greedy cuts through the word, and fails exactly when the
      greedy cuts get stuck. */
  lemma SplitIsGreedy(d: Dict, word: string, pieces: seq<string>)
    ensures Split(d, word, 0) == Some(pieces) <==> CutsWord(d, word, pieces)
    ensures Split(d, word, 0).None? <==> GetsStuck(d, word)
  {
    if CutsWord(d, word, pieces) { CutsAreSplit(d, word, pieces); }
    if GetsStuck(d, word) { StuckIsNone(d, word); }
    assert Greedy(d, word, [], [0]);
    GreedyGoesOn(d, word, [], [0]);
    if exists all :: CutsWord(d, word, all) {
      var all :| CutsWord(d, word, all);
      CutsAreSplit(d, word, all);
    }
  }

  /** What the source makes of a word: the unknown token when it is too long or the greedy cuts get
      stuck, else the pieces of the greedy cuts. */
  ghost predicate TokenizedAs(d: Dict, word: string, pieces: seq<string>)
  {
    if |word| > d.limit || GetsStuck(d, word) then pieces == [d.unk] else CutsWord(d, word, pieces)
  }

  lemma PiecesAreTokenized(d: Dict, word: string)
    ensures TokenizedAs(d, word, PiecesOf(d, word))
  {
    SplitIsGreedy(d, word, PiecesOf(d, word));
  }

  /** The continuation pieces without their marks, joined. */
  function Tail(pieces: seq<string>): string
    requires forall i :: 0 <= i < |pieces| ==> IsSubword(pieces[i])
  {
    if pieces == [] then ""
    else
      assert IsSubword(pieces[0]);
      pieces[0][2..] + Tail(pieces[1..])
  }

  /** Pieces after the first are all marked continuations, and unmarked they spell the rest. */
  lemma {:induction false} SplitRest(d: Dict, word: string, start: nat)
    requires 0 < start <= |word| && Split(d, word, start).Some?
    ensures var p := Split(d, word, start).value;
      && (forall i :: 0 <= i < |p| ==> IsSubword(p[i]) && p[i] in d.known)
      && Tail(p) == word[start..]
    decreases |word| - start
  {
    if start < |word| {
      var e := LongestMatch(d, word, start, |word|);
      SplitRest(d, word, e);
      var p := Split(d, word, start).value;
      assert p[1..] == Split(d, word, e).value;
      assert p[0][2..] == word[start..e];
      assert word[start..] == word[start..e] + word[e..];
    }
  }

  /** A split of a non-empty word begins with a known prefix of it, the longest there is, goes on
      with marked continuations, and spells the word. */
  lemma SplitSpellsWord(d: Dict, word: string)
    requires word != "" && Split(d, word, 0).Some?
    ensures var p := Split(d, word, 0).value;
      && p != [] && p[0] in d.known && p[0] <= word
      && (forall i :: 1 <= i < |p| ==> IsSubword(p[i]) && p[i] in d.known)
      && p[0] + Tail(p[1..]) == word
  {
    var e := LongestMatch(d, word, 0, |word|);
    SplitRest(d, word, e);
    var p := Split(d, word, 0).value;
    assert p[1..] == Split(d, word, e).value;
    assert word == word[..e] + word[e..];
  }

  /** If every byte of the word and its marked form are known, the word splits. */
  lemma {:induction false} ByteCoverageSplits(d: Dict, word: string, start: nat)
    requires start <= |word|
    requires forall b :: b in word ==> [b] in d.known && "##" + [b] in d.known
    ensures Split(d, word, start).Some?
    decreases |word| - start
  {
    if start < |word| {
      var b := word[start];
      assert b in word && word[start..start + 1] == [b];
      assert Spell(word[start..start + 1], start) in d.known;
      ByteCoverageSplits(d, word, LongestMatch(d, word, start, |word|));
    }
  }

  /** With full byte coverage only the length limit makes a word unknown. */
  lemma OnlyLengthMakesUnknown(d: Dict, word: string)
    requires forall b :: b in word ==> [b] in d.known && "##" + [b] in d.known
    ensures IsUnknown(d, word) <==> |word| > d.limit
  {
    ByteCoverageSplits(d, word, 0);
  }

  lemma {:induction false} JoinContents(lists: seq<seq<string>>, n: nat, allowed: set<string>)
    requires n <= |lists| && forall i :: 0 <= i < n ==> forall p :: p in lists[i] ==> p in allowed
    ensures forall p :: p in JoinUpTo(lists, n) ==> p in allowed
  {
    if n > 0 { JoinContents(lists, n - 1, allowed); }
  }

  /** Every piece is in the vocabulary or is the unknown token. */
  lemma PiecesAreKnown(d: Dict, words: seq<string>)
    ensures forall p :: p in AllPieces(d, words) ==> p in d.known || p == d.unk
  {
    var lists := PieceLists(d, words);
    forall i | 0 <= i < |lists| ensures forall p :: p in lists[i] ==> p in d.known || p == d.unk {
      if words[i] != "" && !IsUnknown(d, words[i]) { SplitSpellsWord(d, words[i]); }
    }
    JoinContents(lists, |lists|, d.known + {d.unk});
  }

  lemma {:induction false} JoinGrows(lists: seq<seq<string>>, m: nat, n: nat)
    requires m <= n <= |lists|
    ensures JoinUpTo(lists, m) <= JoinUpTo(lists, n)
  {
    if m < n { JoinGrows(lists, m, n - 1); }
  }

  // ---------------------------------------------------------------- merging back

  /** Everything after the first piece continues the word. */
  predicate Shaped(pieces: seq<string>) { forall i :: 1 <= i < |pieces| ==> IsSubword(pieces[i]) }

  /** The pieces start with one that is not a continuation. */
  predicate OpensWord(pieces: seq<string>) { |pieces| > 0 && !IsSubword(pieces[0]) }

  /** The word the pieces spell. */
  function Spelled(pieces: seq<string>): string
    requires |pieces| > 0 && Shaped(pieces)
  {
    pieces[0] + Tail(pieces[1..])
  }

  predicate Opens(d: Dict, word: string) { OpensWord(PiecesOf(d, word)) }

  ghost predicate AllOpen(d: Dict, words: seq<string>)
  {
    forall i :: 0 <= i < |words| ==> Opens(d, words[i])
  }

  /** What the word comes back as. */
  function Restored(d: Dict, word: string): string { if IsUnknown(d, word) then d.unk else word }

  lemma PiecesAreShaped(d: Dict, word: string)
    ensures Shaped(PiecesOf(d, word))
    ensures Opens(d, word) ==> Spelled(PiecesOf(d, word)) == Restored(d, word)
  {
    var p := PiecesOf(d, word);
    if IsUnknown(d, word) {
      assert p[0] + Tail(p[1..]) == p[0];
    } else if word != "" {
      SplitSpellsWord(d, word);
    }
  }

  lemma ListsAreShaped(d: Dict, words: seq<string>)
    ensures forall i :: 0 <= i < |words| ==> Shaped(PieceLists(d, words)[i])
  {
    forall i | 0 <= i < |words| ensures Shaped(PieceLists(d, words)[i]) {
      PiecesAreShaped(d, words[i]);
    }
  }

  /** Exactly which words open, seen from the word and the vocabulary: an unknown word when the unknown
      token is no continuation, any other when it is not empty and, if it is itself marked as a
      continuation, no prefix that shows the mark is known. */
  predicate MayOpen(d: Dict, word: string)
  {
    if IsUnknown(d, word) then !IsSubword(d.unk)
    else word != "" && (IsSubword(word) ==> forall k :: 2 < k <= |word| ==> word[..k] !in d.known)
  }

  lemma OpensExactly(d: Dict, word: string)
    ensures Opens(d, word) <==> MayOpen(d, word)
  {
    if !IsUnknown(d, word) && word != "" {
      SplitSpellsWord(d, word);
      var first := PiecesOf(d, word)[0];
      var e := LongestMatch(d, word, 0, |word|);
      assert first == word[0..e] == word[..e];
      assert e > 2 ==> first[..2] == word[..2];
      if IsSubword(word) && e <= 2 {
        forall k | 2 < k <= |word| ensures word[..k] !in d.known {
          assert word[0..k] == word[..k];
        }
      }
    }
  }

  /** The ordinary case: the unknown token is no continuation, and the word is neither empty nor
      marked as one. */
  lemma OrdinaryWordOpens(d: Dict, word: string)
    requires !IsSubword(d.unk) && word != "" && !IsSubword(word)
    ensures Opens(d, word)
  {
    OpensExactly(d, word);
  }

  lemma MergeOne(pieces: seq<string>, piece: string)
    ensures Merged(pieces + [piece]) ==
      if Merged(pieces).None? then None else Attach(Merged(pieces).value, piece)
  {
    assert (pieces + [piece])[..|pieces|] == pieces;
  }

  lemma {:induction false} MergeAppendsTail(pieces: seq<string>, more: seq<string>)
    requires Merged(pieces).Some? && Merged(pieces).value != []
    requires forall i :: 0 <= i < |more| ==> IsSubword(more[i])
    ensures var words, last := Merged(pieces).value, |Merged(pieces).value| - 1;
      Merged(pieces + more) == Some(words[last := words[last] + Tail(more)])
    decreases |more|
  {
    var words, last := Merged(pieces).value, |Merged(pieces).value| - 1;
    if more == [] {
      assert pieces + more == pieces;
      assert words[last] + Tail(more) == words[last];
      assert words[last := words[last]] == words;
    } else {
      var next := pieces + [more[0]];
      MergeOne(pieces, more[0]);
      assert IsSubword(more[0]);
      var grown := words[last := words[last] + more[0][2..]];
      assert Merged(next) == Some(grown);
      MergeAppendsTail(next, more[1..]);
      assert next + more[1..] == pieces + more;
      var x := words[last] + Tail(more);
      assert grown[last] + Tail(more[1..]) == x;
      assert grown[last := x] == words[last := x];
    }
  }

  lemma ReplaceLast(words: seq<string>, was: string, now: string)
    ensures (words + [was])[|words| := now] == words + [now]
  {
  }

  /** Merging an opening piece and its continuations appends the word they spell. */
  lemma MergeAppendsPieces(before: seq<string>, first: string, more: seq<string>)
    requires Merged(before).Some? && !IsSubword(first)
    requires forall i :: 0 <= i < |more| ==> IsSubword(more[i])
    ensures Merged(before + [first] + more) == Some(Merged(before).value + [first + Tail(more)])
  {
    MergeOne(before, first);
    MergeAppendsTail(before + [first], more);
    ReplaceLast(Merged(before).value, first, first + Tail(more));
  }

  lemma MergeAppendsWord(before: seq<string>, p: seq<string>)
    requires Merged(before).Some? && Shaped(p) && OpensWord(p)
    ensures Merged(before + p) == Some(Merged(before).value + [Spelled(p)])
  {
    MergeAppendsPieces(before, p[0], p[1..]);
    assert before + [p[0]] + p[1..] == before + p;
  }

  lemma {:induction false} MergeRestores(lists: seq<seq<string>>, n: nat)
    requires n <= |lists|
    requires forall i {:trigger lists[i]} :: 0 <= i < n ==> Shaped(lists[i]) && OpensWord(lists[i])
    ensures var m := Merged(JoinUpTo(lists, n));
      && m.Some? && |m.value| == n
      && forall i :: 0 <= i < n ==> OpensWord(lists[i]) && m.value[i] == Spelled(lists[i])
  {
    if n > 0 {
      MergeRestores(lists, n - 1);
      MergeAppendsWord(JoinUpTo(lists, n - 1), lists[n - 1]);
    }
  }

  /** The pieces that begin a word. */
  function Heads(pieces: seq<string>): nat
  {
    if pieces == [] then 0
    else Heads(pieces[..|pieces| - 1]) + if IsSubword(pieces[|pieces| - 1]) then 0 else 1
  }

  lemma {:induction false} HeadsAdd(a: seq<string>, b: seq<string>)
    ensures Heads(a + b) == Heads(a) + Heads(b)
  {
    if b == [] {
      assert a + b == a;
    } else {
      var n := |b| - 1;
      HeadsAdd(a, b[..n]);
      assert (a + b)[..|a + b| - 1] == a + b[..n];
    }
  }

  /** Merging succeeds unless the very first piece is a continuation, and yields one word per head. */
  lemma {:induction false} MergedLength(pieces: seq<string>)
    ensures Merged(pieces).None? <==> pieces != [] && IsSubword(pieces[0])
    ensures Merged(pieces).Some? ==> |Merged(pieces).value| == Heads(pieces)
    ensures pieces != [] && !IsSubword(pieces[0]) ==> Heads(pieces) > 0
  {
    if pieces != [] {
      var n := |pieces| - 1;
      MergedLength(pieces[..n]);
      assert n > 0 ==> pieces[..n][0] == pieces[0];
    }
  }

  lemma {:induction false} HeadsOfContinuations(pieces: seq<string>)
    requires forall i :: 0 <= i < |pieces| ==> IsSubword(pieces[i])
    ensures Heads(pieces) == 0
  {
    if pieces != [] { HeadsOfContinuations(pieces[..|pieces| - 1]); }
  }

  /** A word contributes one head if it opens and none otherwise. */
  lemma HeadsOfShaped(p: seq<string>)
    requires Shaped(p)
    ensures Heads(p) == if OpensWord(p) then 1 else 0
  {
    if p != [] {
      HeadsOfContinuations(p[1..]);
      HeadsAdd([p[0]], p[1..]);
      assert [p[0]] + p[1..] == p;
      assert [p[0]][..0] == [];
    }
  }

  function OpenCount(lists: seq<seq<string>>, n: nat): nat
    requires n <= |lists|
  {
    if n == 0 then 0 else OpenCount(lists, n - 1) + if OpensWord(lists[n - 1]) then 1 else 0
  }

  lemma {:induction false} OpenCountFull(lists: seq<seq<string>>, n: nat)
    requires n <= |lists|
    ensures OpenCount(lists, n) <= n
    ensures OpenCount(lists, n) == n <==> forall i :: 0 <= i < n ==> OpensWord(lists[i])
  {
    if n > 0 { OpenCountFull(lists, n - 1); }
  }

  lemma {:induction false} HeadsAreOpenWords(lists: seq<seq<string>>, n: nat)
    requires n <= |lists| && forall i :: 0 <= i < n ==> Shaped(lists[i])
    ensures Heads(JoinUpTo(lists, n)) == OpenCount(lists, n)
  {
    if n > 0 {
      HeadsAreOpenWords(lists, n - 1);
      HeadsOfShaped(lists[n - 1]);
      HeadsAdd(JoinUpTo(lists, n - 1), lists[n - 1]);
    }
  }

  lemma HeadsAtMostWords(d: Dict, words: seq<string>)
    ensures Heads(AllPieces(d, words)) <= |words|
    ensures Heads(AllPieces(d, words)) == |words| <==> AllOpen(d, words)
  {
    var lists := PieceLists(d, words);
    ListsAreShaped(d, words);
    HeadsAreOpenWords(lists, |words|);
    OpenCountFull(lists, |words|);
    assert forall i :: 0 <= i < |words| ==> (OpensWord(lists[i]) <==> Opens(d, words[i]));
  }

  /** Round trip: merging the pieces of a word list gives back one entry per word exactly when every
      word opens, and then each entry is the word itself or the unknown token.  Whether a word opens
      can be seen from it and the vocabulary. */
  lemma MergeTokenizeRoundTrip(d: Dict, words: seq<string>)
    ensures var m := Merged(AllPieces(d, words));
      && ((m.Some? && |m.value| == |words|) <==> AllOpen(d, words))
      && (AllOpen(d, words) ==> forall i :: 0 <= i < |words| ==> m.value[i] == Restored(d, words[i]))
    ensures AllOpen(d, words) <==> forall i :: 0 <= i < |words| ==> MayOpen(d, words[i])
  {
    forall i | 0 <= i < |words| ensures Opens(d, words[i]) <==> MayOpen(d, words[i]) {
      OpensExactly(d, words[i]);
    }
    MergedLength(AllPieces(d, words));
    HeadsAtMostWords(d, words);
    if AllOpen(d, words) {
      var lists := PieceLists(d, words);
      forall i | 0 <= i < |words|
        ensures Shaped(lists[i]) && OpensWord(lists[i]) && Spelled(lists[i]) == Restored(d, words[i])
      {
        assert Opens(d, words[i]);
        PiecesAreShaped(d, words[i]);
      }
      MergeRestores(lists, |words|);
    }
  }

  /** A word that the vocabulary lists as a continuation does not come back. */
  lemma MarkedWordIsLost()
    ensures Merged(AllPieces(Dict({"##ab"}, "[UNK]", 100), ["##ab"])).None?
  {
    var d, word := Dict({"##ab"}, "[UNK]", 100), "##ab";
    assert word[0..4] == word;
    assert Split(d, word, 4) == Some([]);
    assert Split(d, word, 0) == Some([word] + []);
    assert PiecesOf(d, word) == [word];
    var lists := PieceLists(d, [word]);
    assert lists[0] == [word];
    assert JoinUpTo(lists, 1) == [] + [word];
    MergedLength([word]);
  }

  // ---------------------------------------------------------------- the source's class

  /** The ids of the vocabulary lines read so far: for repeated lines, the last one's. */
  ghost predicate IsIdMap(vocab: seq<string>, ids: map<string, nat>)
  {
    && (forall t :: t in ids <==> t in vocab)
    && (forall t :: t in ids ==> ids[t] < |vocab| && vocab[ids[t]] == t)
    && (forall i :: 0 <= i < |vocab| ==> i <= ids[vocab[i]])
  }

  function IdsOf(ids: map<string, nat>, tokens: seq<string>): Option<seq<nat>>
  {
    if forall i :: 0 <= i < |tokens| ==> tokens[i] in ids then
      Some(seq(|tokens|, i requires 0 <= i < |tokens| && tokens[i] in ids => ids[tokens[i]]))
    else None
  }

  function TokensOf(vocab: seq<string>, ids: seq<nat>): Option<seq<string>>
  {
    if forall i :: 0 <= i < |ids| ==> ids[i] < |vocab| then
      Some(seq(|ids|, i requires 0 <= i < |ids| && ids[i] < |vocab| => vocab[ids[i]]))
    else None
  }

  class WordPieceTokenizer {
    const unkToken: string
    const maxInputCharsPerWord: int
    const vocab: seq<string>
    const vocabMap: map<string, nat>

    ghost predicate Valid() { IsIdMap(vocab, vocabMap) }

    ghost function Dictionary(): Dict { Dict(vocabMap.Keys, unkToken, maxInputCharsPerWord) }

    /** Reads the vocabulary line by line. */
    constructor (lines: seq<string>, unkToken: string, maxInputCharsPerWord: int)
      ensures Valid() && vocab == lines
      ensures Dictionary() == Dict((set t | t in lines), unkToken, maxInputCharsPerWord)
    {
      var vocab: seq<string> := [];
      var vocabMap: map<string, nat> := map[];
      for n := 0 to |lines|
        invariant vocab == lines[..n] && IsIdMap(vocab, vocabMap)
      {
        vocab := vocab + [lines[n]];
        var id := |vocab| - 1;
        vocabMap := vocabMap[lines[n] := id];
      }
      this.unkToken, this.maxInputCharsPerWord := unkToken, maxInputCharsPerWord;
      this.vocab, this.vocabMap := vocab, vocabMap;
    }

    /** The two inner loops of Tokenize: the pieces of one word that is within the length limit. */
    method SplitWord(token: string) returns (isBad: bool, subTokens: seq<string>)
      ensures isBad <==> Split(Dictionary(), token, 0).None?
      ensures !isBad ==> Split(Dictionary(), token, 0) == Some(subTokens)
      ensures if isBad then GetsStuck(Dictionary(), token) else CutsWord(Dictionary(), token, subTokens)
    {
      ghost var d := Dictionary();
      isBad := false;
      subTokens := [];
      var startChar := 0;
      PrependNothing(Split(d, token, 0));
      while startChar < |token|
        invariant startChar <= |token|
        invariant Split(d, token, 0) == Prepend(subTokens, Split(d, token, startChar))
      {
        var endChar := |token|;
        var currentSubstr := "";
        while startChar < endChar
          invariant startChar <= endChar <= |token|
          invariant currentSubstr == ""
          invariant LongestMatch(d, token, startChar, |token|) == LongestMatch(d, token, startChar, endChar)
        {
          var substr := token[startChar..endChar];
          if startChar > 0 {
            substr := "##" + substr;
          }
          if substr in vocabMap {
            currentSubstr := substr;
            break;
          }
          endChar := endChar - 1;
        }
        if currentSubstr == "" {
          isBad := true;
          break;
        }
        PrependOne(subTokens, currentSubstr, Split(d, token, endChar));
        subTokens := subTokens + [currentSubstr];
        startChar := endChar;
      }
      assert !isBad ==> subTokens + [] == subTokens;
      SplitIsGreedy(d, token, subTokens);
    }

    method Tokenize(words: seq<string>) returns (wordPieces: seq<string>)
      ensures wordPieces == AllPieces(Dictionary(), words)
      ensures forall i :: 0 <= i < |words| ==>
        TokenizedAs(Dictionary(), words[i], PieceLists(Dictionary(), words)[i])
    {
      forall i | 0 <= i < |words| ensures TokenizedAs(Dictionary(), words[i], PieceLists(Dictionary(), words)[i]) {
        PiecesAreTokenized(Dictionary(), words[i]);
      }
      wordPieces := [];
      for i := 0 to |words|
        invariant wordPieces == JoinUpTo(PieceLists(Dictionary(), words), i)
      {
        var token := words[i];
        if |token| > maxInputCharsPerWord {
          wordPieces := wordPieces + [unkToken];
          continue;
        }
        var isBad, subTokens := SplitWord(token);
        if isBad {
          wordPieces := wordPieces + [unkToken];
        } else {
          wordPieces := wordPieces + subTokens;
        }
      }
    }

    /** None where the source throws because the first piece is a continuation. */
    method Merge(wordPieces: seq<string>) returns (words: Option<seq<string>>)
      ensures words == Merged(wordPieces)
    {
      var merged: seq<string> := [];
      for i := 0 to |wordPieces|
        invariant Merged(wordPieces[..i]) == Some(merged)
      {
        assert wordPieces[..i + 1][..i] == wordPieces[..i];
        var piece := wordPieces[i];
        if IsSubword(piece) {
          if |merged| == 0 {
            MergedLength(wordPieces[..i + 1]);
            MergedLength(wordPieces);
            return None;
          }
          merged := merged[|merged| - 1 := merged[|merged| - 1] + piece[2..]];
        } else {
          merged := merged + [piece];
        }
      }
      assert wordPieces[..|wordPieces|] == wordPieces;
      return Some(merged);
    }

    /** None where the source throws because a token is not in the vocabulary. */
    method TokensToIds(tokens: seq<string>) returns (ids: Option<seq<nat>>)
      ensures ids == IdsOf(vocabMap, tokens)
    {
      var found: seq<nat> := [];
      for i := 0 to |tokens|
        invariant |found| == i
        invariant forall k :: 0 <= k < i ==> tokens[k] in vocabMap && found[k] == vocabMap[tokens[k]]
      {
        if tokens[i] !in vocabMap {
          return None;
        }
        found := found + [vocabMap[tokens[i]]];
      }
      assert found == IdsOf(vocabMap, tokens).value;
      return Some(found);
    }

    /** None where the source throws because an id is out of range. */
    method IdsToTokens(ids: seq<nat>) returns (tokens: Option<seq<string>>)
      ensures tokens == TokensOf(vocab, ids)
    {
      var found: seq<string> := [];
      for i := 0 to |ids|
        invariant |found| == i
        invariant forall k :: 0 <= k < i ==> ids[k] < |vocab| && found[k] == vocab[ids[k]]
      {
        if ids[i] >= |vocab| {
          return None;
        }
        found := found + [vocab[ids[i]]];
      }
      assert found == TokensOf(vocab, ids).value;
      return Some(found);
    }

    method TokenizeToIds(words: seq<string>) returns (ids: Option<seq<nat>>)
      ensures ids == IdsOf(vocabMap, AllPieces(Dictionary(), words))
    {
      var pieces := Tokenize(words);
      ids := TokensToIds(pieces);
    }
  }

  // ---------------------------------------------------------------- ids

  /** Ids name their tokens: converting known tokens to ids and back is the identity, repeated
      vocabulary lines or not. */
  lemma TokensSurviveIds(vocab: seq<string>, ids: map<string, nat>, tokens: seq<string>)
    requires IsIdMap(vocab, ids) && IdsOf(ids, tokens).Some?
    ensures TokensOf(vocab, IdsOf(ids, tokens).value) == Some(tokens)
  {
    var found := IdsOf(ids, tokens).value;
    assert forall i :: 0 <= i < |tokens| ==> found[i] < |vocab| && vocab[found[i]] == tokens[i];
    assert TokensOf(vocab, found).value == tokens;
  }

  /** Line i of the vocabulary is not repeated further down. */
  ghost predicate IsLastOccurrence(vocab: seq<string>, i: nat)
  {
    i < |vocab| && forall j :: i < j < |vocab| ==> vocab[j] != vocab[i]
  }

  /** The other way round the identity holds exactly when no id names a line repeated later. */
  lemma IdsSurviveTokens(vocab: seq<string>, ids: map<string, nat>, given: seq<nat>)
    requires IsIdMap(vocab, ids) && TokensOf(vocab, given).Some?
    ensures IdsOf(ids, TokensOf(vocab, given).value) == Some(given)
      <==> forall k :: 0 <= k < |given| ==> IsLastOccurrence(vocab, given[k])
  {
    var tokens := TokensOf(vocab, given).value;
    forall k | 0 <= k < |given|
      ensures ids[tokens[k]] == given[k] <==> IsLastOccurrence(vocab, given[k])
    {
      assert tokens[k] == vocab[given[k]];
      assert given[k] <= ids[tokens[k]];
    }
    var back := IdsOf(ids, tokens);
    forall k | 0 <= k < |given| ensures tokens[k] in ids {
    }
    assert back.Some?;
    if forall k :: 0 <= k < |given| ==> IsLastOccurrence(vocab, given[k]) {
      assert back.value == given;
    }
    if back.value == given {
      forall k | 0 <= k < |given| ensures IsLastOccurrence(vocab, given[k]) {
        assert back.value[k] == ids[tokens[k]];
      }
    }
  }

  /** With the unknown token in the vocabulary every word list has ids, and they lead back to its
      pieces. */
  lemma TokenizeToIdsIsTotal(vocab: seq<string>, ids: map<string, nat>, unk: string, limit: int, words: seq<string>)
    requires IsIdMap(vocab, ids) && unk in vocab
    ensures var pieces := AllPieces(Dict(ids.Keys, unk, limit), words);
      IdsOf(ids, pieces).Some? && TokensOf(vocab, IdsOf(ids, pieces).value) == Some(pieces)
  {
    PiecesAreKnown(Dict(ids.Keys, unk, limit), words);
    TokensSurviveIds(vocab, ids, AllPieces(Dict(ids.Keys, unk, limit), words));
  }
}
