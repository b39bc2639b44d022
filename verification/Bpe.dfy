/**
 * Byte-pair encoding: the merge loop as repeated merging of the leftmost adjacent pair of least
 * rank, and what the encoder keeps of the words it is given.
 */
module Bpe {
  import opened Prelude
  import opened Utf8
  import opened Vocabulary
  import opened SentencePiece

  type Ranks = map<(string, string), nat>

  // ---------------------------------------------------------------------------------------------
  // The merge relation
  // ---------------------------------------------------------------------------------------------

  predicate Mergeable(ranks: Ranks, pieces: seq<string>, i: nat) {
    i + 1 < |pieces| && (pieces[i], pieces[i + 1]) in ranks
  }

  function RankAt(ranks: Ranks, pieces: seq<string>, i: nat): nat
    requires Mergeable(ranks, pieces, i)
  {
    ranks[(pieces[i], pieces[i + 1])]
  }

  /** `i` is the leftmost of the adjacent pairs of least rank among the first `n`. */
  ghost predicate LeftmostLeast(ranks: Ranks, pieces: seq<string>, i: nat, n: nat) {
    && i < n && Mergeable(ranks, pieces, i)
    && forall j :: 0 <= j < n && Mergeable(ranks, pieces, j) ==>
      && RankAt(ranks, pieces, i) <= RankAt(ranks, pieces, j)
      && (j < i ==> RankAt(ranks, pieces, i) < RankAt(ranks, pieces, j))
  }

  function Merge(pieces: seq<string>, i: nat): (merged: seq<string>)
    requires i + 1 < |pieces|
    ensures |merged| == |pieces| - 1
  {
    pieces[..i] + [pieces[i] + pieces[i + 1]] + pieces[i + 2..]
  }

  /** One step of byte-pair encoding. */
  ghost predicate MergeStep(ranks: Ranks, before: seq<string>, after: seq<string>) {
    exists i :: LeftmostLeast(ranks, before, i, |before|) && after == Merge(before, i)
  }

  predicate Settled(ranks: Ranks, pieces: seq<string>) {
    forall i :: 0 <= i < |pieces| ==> !Mergeable(ranks, pieces, i)
  }

  /** A run of steps that stops only when no adjacent pair can be merged. */
  ghost predicate FullRun(ranks: Ranks, run: seq<seq<string>>) {
    && run != []
    && (forall k :: 0 <= k < |run| - 1 ==> MergeStep(ranks, run[k], run[k + 1]))
    && Settled(ranks, run[|run| - 1])
  }

  /** Every step has one outcome, and so has every full run from the same start. */
  lemma {:induction false} FullRunsAgree(ranks: Ranks, a: seq<seq<string>>, b: seq<seq<string>>)
    requires FullRun(ranks, a) && FullRun(ranks, b) && a[0] == b[0]
    ensures a == b
    decreases |a|
  {
    if |a| > 1 {
      assert MergeStep(ranks, a[0], a[1]);
      assert |b| > 1;
      assert MergeStep(ranks, b[0], b[1]);
      FullRunTail(ranks, a);
      FullRunTail(ranks, b);
      FullRunsAgree(ranks, a[1..], b[1..]);
      assert a == [a[0]] + a[1..] && b == [b[0]] + b[1..];
    } else {
      SettledStays(ranks, b);
    }
  }

  lemma {:induction false} SettledStays(ranks: Ranks, run: seq<seq<string>>)
    requires FullRun(ranks, run) && Settled(ranks, run[0])
    ensures |run| == 1
  {
    assert |run| > 1 ==> MergeStep(ranks, run[0], run[1]);
  }

  lemma {:induction false} FullRunTail(ranks: Ranks, run: seq<seq<string>>)
    requires FullRun(ranks, run) && |run| > 1
    ensures FullRun(ranks, run[1..])
  {
    forall k | 0 <= k < |run| - 2 ensures MergeStep(ranks, run[1..][k], run[1..][k + 1]) {
      assert MergeStep(ranks, run[k + 1], run[k + 2]);
    }
  }

  // ---------------------------------------------------------------------------------------------
  // What merging keeps
  // ---------------------------------------------------------------------------------------------

  lemma {:induction false} ConcatAppend(a: seq<string>, b: seq<string>)
    ensures Concat(a + b) == Concat(a) + Concat(b)
    decreases |b|
  {
    if b == [] {
      assert a + b == a;
    } else {
      var n := |b| - 1;
      assert (a + b)[..|a| + n] == a + b[..n];
      ConcatAppend(a, b[..n]);
      Prepend(Concat(a), Concat(b[..n]), b[n]);
    }
  }

  lemma {:induction false} ConcatOne(x: string)
    ensures Concat([x]) == x
  {
    assert [x][..0] == [];
  }

  lemma {:induction false} ConcatTwo(x: string, y: string)
    ensures Concat([x, y]) == x + y
  {
    ConcatOne(x);
    assert [x, y][..1] == [x];
  }

  lemma {:induction false} ConcatThree(a: seq<string>, b: seq<string>, c: seq<string>)
    ensures Concat(a + b + c) == Concat(a) + Concat(b) + Concat(c)
  {
    ConcatAppend(a, b);
    ConcatAppend(a + b, c);
  }

  lemma {:induction false} PairInPlace(pieces: seq<string>, i: nat)
    requires i + 1 < |pieces|
    ensures pieces == pieces[..i] + [pieces[i], pieces[i + 1]] + pieces[i + 2..]
  {}

  lemma {:induction false} MergeKeepsText(pieces: seq<string>, i: nat)
    requires i + 1 < |pieces|
    ensures Concat(Merge(pieces, i)) == Concat(pieces)
  {
    PairInPlace(pieces, i);
    ConcatOne(pieces[i] + pieces[i + 1]);
    ConcatTwo(pieces[i], pieces[i + 1]);
    ConcatThree(pieces[..i], [pieces[i] + pieces[i + 1]], pieces[i + 2..]);
    ConcatThree(pieces[..i], [pieces[i], pieces[i + 1]], pieces[i + 2..]);
  }

  predicate InVocabulary(t: Tokenizer, pieces: seq<string>) {
    forall i :: 0 <= i < |pieces| ==> pieces[i] in t.tokenToId
  }

  /** Everything a merge can produce is a token. */
  ghost predicate ProductsInVocabulary(t: Tokenizer) {
    forall pair :: pair in t.mergesRank ==> pair.0 + pair.1 in t.tokenToId
  }

  // ---------------------------------------------------------------------------------------------
  // The loop
  // ---------------------------------------------------------------------------------------------

  function Characters(word: string): (pieces: seq<string>)
    ensures |pieces| == |word|
    ensures forall i :: 0 <= i < |word| ==> pieces[i] == [word[i]]
  {
    seq(|word|, i requires 0 <= i < |word| => [word[i]])
  }

  lemma {:induction false} ConcatCharacters(word: string)
    ensures Concat(Characters(word)) == word
  {
    if word != "" {
      var n := |word| - 1;
      assert Characters(word)[..n] == Characters(word[..n]);
      ConcatCharacters(word[..n]);
    }
  }

  /** The pair to merge among the first `n`, if any. */
  function BestPair(ranks: Ranks, pieces: seq<string>, n: nat): (best: Option<nat>)
    requires n <= |pieces|
    ensures best.Some? ==> LeftmostLeast(ranks, pieces, best.value, n)
    ensures best.None? ==> forall i :: 0 <= i < n ==> !Mergeable(ranks, pieces, i)
  {
    if n == 0 then None
    else
      var best := BestPair(ranks, pieces, n - 1);
      if Mergeable(ranks, pieces, n - 1)
         && (best.None? || RankAt(ranks, pieces, n - 1) < RankAt(ranks, pieces, best.value))
      then Some(n - 1)
      else best
  }

  /** Merging until nothing can be. */
  function Merged(ranks: Ranks, pieces: seq<string>): seq<string>
    decreases |pieces|
  {
    match BestPair(ranks, pieces, |pieces|)
    case None => pieces
    case Some(i) => Merged(ranks, Merge(pieces, i))
  }

  /** The result of merging is the end of a full run; by `FullRunsAgree`, of the only one. */
  lemma {:induction false} MergedEndsFullRun(ranks: Ranks, pieces: seq<string>) returns (run: seq<seq<string>>)
    ensures FullRun(ranks, run) && run[0] == pieces && run[|run| - 1] == Merged(ranks, pieces)
    decreases |pieces|
  {
    match BestPair(ranks, pieces, |pieces|)
    case None =>
      run := [pieces];
    case Some(i) =>
      var rest := MergedEndsFullRun(ranks, Merge(pieces, i));
      run := [pieces] + rest;
      assert MergeStep(ranks, run[0], run[1]);
      forall k | 0 <= k < |run| - 1 ensures MergeStep(ranks, run[k], run[k + 1]) {
        if k > 0 {
          assert MergeStep(ranks, rest[k - 1], rest[k]);
        }
      }
  }

  lemma {:induction false} MergedKeepsText(ranks: Ranks, pieces: seq<string>)
    ensures Concat(Merged(ranks, pieces)) == Concat(pieces)
    decreases |pieces|
  {
    match BestPair(ranks, pieces, |pieces|)
    case None =>
    case Some(i) =>
      MergeKeepsText(pieces, i);
      MergedKeepsText(ranks, Merge(pieces, i));
  }

  lemma {:induction false} MergedInVocabulary(t: Tokenizer, pieces: seq<string>)
    requires ProductsInVocabulary(t) && InVocabulary(t, pieces)
    ensures InVocabulary(t, Merged(t.mergesRank, pieces))
    decreases |pieces|
  {
    match BestPair(t.mergesRank, pieces, |pieces|)
    case None =>
    case Some(i) =>
      assert (pieces[i], pieces[i + 1]) in t.mergesRank;
      MergedInVocabulary(t, Merge(pieces, i));
  }

  lemma {:induction false} NoRanksNoPairs(ranks: Ranks, pieces: seq<string>, n: nat)
    requires |ranks| == 0 && n <= |pieces|
    ensures BestPair(ranks, pieces, n) == None
  {}

  method FindBestPair(ranks: Ranks, pieces: seq<string>) returns (best: Option<nat>)
    ensures best == BestPair(ranks, pieces, |pieces|)
  {
    best := None;
    var bestRank := None;
    var i := 0;
    while i + 1 < |pieces|
      invariant 0 <= i && (|pieces| > 0 ==> i < |pieces|)
      invariant i <= |pieces| && best == BestPair(ranks, pieces, i)
      invariant bestRank == if best.Some? then Some(RankAt(ranks, pieces, best.value)) else None
    {
      if (pieces[i], pieces[i + 1]) in ranks {
        var rank := ranks[(pieces[i], pieces[i + 1])];
        if bestRank.None? || rank < bestRank.value {
          bestRank := Some(rank);
          best := Some(i);
        }
      }
      i := i + 1;
    }
  }

  method BpeWord(t: Tokenizer, word: string) returns (pieces: seq<string>)
    ensures pieces == Merged(t.mergesRank, Characters(word))
  {
    pieces := Characters(word);
    if word == "" || |t.mergesRank| == 0 {
      if word != "" {
        NoRanksNoPairs(t.mergesRank, pieces, |pieces|);
      }
      return;
    }
    while true
      invariant Merged(t.mergesRank, pieces) == Merged(t.mergesRank, Characters(word))
      decreases |pieces|
    {
      var best := FindBestPair(t.mergesRank, pieces);
      if best.None? {
        break;
      }
      ghost var merged := Merge(pieces, best.value);
      pieces := pieces[best.value := pieces[best.value] + pieces[best.value + 1]];
      pieces := pieces[..best.value + 1] + pieces[best.value + 2..];
      assert pieces == merged;
    }
  }

  // ---------------------------------------------------------------------------------------------
  // Pre-tokenization
  // ---------------------------------------------------------------------------------------------

  predicate HasGDot(t: Tokenizer) {
    exists i :: 0 <= i < |t.tokens| && [G_DOT] <= t.tokens[i]
  }

  /** How long the text's first word is. */
  function WordLength(text: string): (n: nat)
    ensures n <= |text|
    ensures forall i :: 0 <= i < n ==> !IsWhitespace(text[i])
    ensures n < |text| ==> IsWhitespace(text[n])
  {
    if text == "" || IsWhitespace(text[0]) then 0 else 1 + WordLength(text[1..])
  }

  /** `str::split_whitespace`. */
  function SplitWhitespace(text: string): (words: seq<string>)
    ensures forall w :: 0 <= w < |words| ==> words[w] != ""
  {
    if text == "" then []
    else if IsWhitespace(text[0]) then SplitWhitespace(text[1..])
    else [text[..WordLength(text)]] + SplitWhitespace(text[WordLength(text)..])
  }

  /** The word that starts at `begin`: no whitespace inside, and whitespace or an end on both sides. */
  predicate IsWordAt(text: string, word: string, begin: nat) {
    && word != "" && begin + |word| <= |text| && word == text[begin..begin + |word|]
    && (forall i :: begin <= i < begin + |word| ==> !IsWhitespace(text[i]))
    && (begin > 0 ==> IsWhitespace(text[begin - 1]))
    && (begin + |word| < |text| ==> IsWhitespace(text[begin + |word|]))
  }

  /** `words` are all maximal stretches without whitespace, in order, each where `begins` says. */
  ghost predicate AreWords(text: string, words: seq<string>, begins: seq<nat>) {
    && |words| == |begins|
    && (forall w :: 0 <= w < |words| ==> IsWordAt(text, words[w], begins[w]))
    && (forall v, w :: 0 <= v < w < |words| ==> begins[v] < begins[w])
    && (forall i :: 0 <= i < |text| && !IsWhitespace(text[i]) ==>
      exists w :: 0 <= w < |words| && begins[w] <= i < begins[w] + |words[w]|)
  }

  /** Splitting finds the words of the text. */
  lemma {:induction false} SplitIsMaximal(text: string) returns (begins: seq<nat>)
    ensures AreWords(text, SplitWhitespace(text), begins)
  {
    if text == "" {
      begins := [];
    } else if IsWhitespace(text[0]) {
      var rest := SplitIsMaximal(text[1..]);
      begins := Shifted(rest, 1);
      WordsAfterSpace(text, SplitWhitespace(text[1..]), rest);
    } else {
      var n := WordLength(text);
      var rest := SplitIsMaximal(text[n..]);
      begins := [0] + Shifted(rest, n);
      WordsAfterWord(text, SplitWhitespace(text[n..]), rest);
    }
  }

  function Shifted(begins: seq<nat>, n: nat): (shifted: seq<nat>)
    ensures |shifted| == |begins| && forall w :: 0 <= w < |begins| ==> shifted[w] == begins[w] + n
  {
    seq(|begins|, w requires 0 <= w < |begins| => begins[w] + n)
  }

  /** A word of what follows a word boundary is a word of the whole. */
  lemma {:induction false} WordBehind(text: string, word: string, begin: nat, n: nat)
    requires n <= |text| && IsWordAt(text[n..], word, begin)
    requires begin == 0 && n > 0 ==> IsWhitespace(text[n - 1])
    ensures IsWordAt(text, word, begin + n)
  {
    forall i | begin + n <= i < begin + n + |word| ensures !IsWhitespace(text[i]) {
      assert text[i] == text[n..][i - n];
    }
  }

  lemma {:induction false} WordsAfterSpace(text: string, words: seq<string>, begins: seq<nat>)
    requires text != "" && IsWhitespace(text[0]) && AreWords(text[1..], words, begins)
    ensures AreWords(text, words, Shifted(begins, 1))
  {
    forall w | 0 <= w < |words| ensures IsWordAt(text, words[w], Shifted(begins, 1)[w]) {
      WordBehind(text, words[w], begins[w], 1);
    }
    forall i | 0 <= i < |text| && !IsWhitespace(text[i])
      ensures exists w :: 0 <= w < |words| && Shifted(begins, 1)[w] <= i < Shifted(begins, 1)[w] + |words[w]|
    {
      assert text[1..][i - 1] == text[i];
    }
  }

  lemma {:induction false} WordsAfterWord(text: string, words: seq<string>, begins: seq<nat>)
    requires text != "" && !IsWhitespace(text[0]) && AreWords(text[WordLength(text)..], words, begins)
    ensures AreWords(text, [text[..WordLength(text)]] + words, [0] + Shifted(begins, WordLength(text)))
  {
    hide IsWhitespace, IsWordAt;
    var n := WordLength(text);
    var all, places := [text[..n]] + words, [0] + Shifted(begins, n);
    FirstWord(text);
    forall w | 0 <= w < |all| ensures IsWordAt(text, all[w], places[w]) {
      if w > 0 {
        WordAfterWord(text, words[w - 1], begins[w - 1]);
      }
    }
    forall i | 0 <= i < |text| && !IsWhitespace(text[i])
      ensures exists w :: 0 <= w < |all| && places[w] <= i < places[w] + |all[w]|
    {
      if i < n {
        assert places[0] <= i < places[0] + |all[0]|;
      } else {
        assert text[n..][i - n] == text[i];
        var v :| 0 <= v < |words| && begins[v] <= i - n < begins[v] + |words[v]|;
        assert places[v + 1] <= i < places[v + 1] + |all[v + 1]|;
      }
    }
  }

  lemma {:induction false} FirstWord(text: string)
    requires text != "" && !IsWhitespace(text[0])
    ensures WordLength(text) > 0 && IsWordAt(text, text[..WordLength(text)], 0)
  {
    hide IsWhitespace;
  }

  lemma {:induction false} WordAfterWord(text: string, word: string, begin: nat)
    requires text != "" && !IsWhitespace(text[0]) && IsWordAt(text[WordLength(text)..], word, begin)
    ensures IsWordAt(text, word, begin + WordLength(text)) && begin > 0
  {
    hide IsWhitespace;
    var n := WordLength(text);
    FirstWord(text);
    assert text[n..][0] == text[n];
    WordBehind(text, word, begin, n);
  }

  /** A text has its words at one list of places only. */
  lemma {:induction false} WordsAreUnique(text: string, a: seq<string>, p: seq<nat>, b: seq<string>, q: seq<nat>)
    requires AreWords(text, a, p) && AreWords(text, b, q)
    ensures a == b && p == q
  {
    hide IsWordAt;
    SameWords(text, a, p, b, q, Min(|a|, |b|));
    NoFurtherWord(text, a, p, b, q);
    NoFurtherWord(text, b, q, a, p);
  }

  /** Words through the same place are the same. */
  lemma {:induction false} WordThrough(text: string, a: string, p: nat, b: string, q: nat, i: nat)
    requires IsWordAt(text, a, p) && IsWordAt(text, b, q)
    requires p <= i < p + |a| && q <= i < q + |b|
    ensures a == b && p == q
  {}

  lemma {:induction false} WordOver(text: string, words: seq<string>, begins: seq<nat>, i: nat) returns (w: nat)
    requires AreWords(text, words, begins) && i < |text| && !IsWhitespace(text[i])
    ensures w < |words| && begins[w] <= i < begins[w] + |words[w]|
  {
    w :| 0 <= w < |words| && begins[w] <= i < begins[w] + |words[w]|;
  }

  /** The word of one list at a place of the other is that other's word. */
  lemma {:induction false} Counterpart(text: string, a: seq<string>, p: seq<nat>, b: seq<string>, q: seq<nat>, k: nat)
    returns (v: nat)
    requires AreWords(text, a, p) && AreWords(text, b, q) && k < |a|
    ensures v < |b| && b[v] == a[k] && q[v] == p[k]
  {
    assert IsWordAt(text, a[k], p[k]);
    v := WordOver(text, b, q, p[k]);
    WordThrough(text, a[k], p[k], b[v], q[v], p[k]);
  }

  /** The n-th word of one list is the n-th of the other. */
  lemma {:induction false} SameWords(text: string, a: seq<string>, p: seq<nat>, b: seq<string>, q: seq<nat>, n: nat)
    requires AreWords(text, a, p) && AreWords(text, b, q) && n <= |a| && n <= |b|
    ensures forall k :: 0 <= k < n ==> a[k] == b[k] && p[k] == q[k]
  {
    hide IsWordAt;
    if n > 0 {
      SameWords(text, a, p, b, q, n - 1);
      var v := Counterpart(text, a, p, b, q, n - 1);
      var w := Counterpart(text, b, q, a, p, n - 1);
    }
  }

  lemma {:induction false} NoFurtherWord(text: string, a: seq<string>, p: seq<nat>, b: seq<string>, q: seq<nat>)
    requires AreWords(text, a, p) && AreWords(text, b, q)
    requires forall k :: 0 <= k < |a| && k < |b| ==> p[k] == q[k]
    ensures |b| <= |a|
  {
    hide IsWordAt;
    if |a| < |b| {
      var w := Counterpart(text, b, q, a, p, |a|);
      assert false;
    }
  }

  /** Words after the first carry the space marker, and so does the first when the text opens with a space. */
  function Marked(words: seq<string>, openingSpace: bool): (marked: seq<string>)
    ensures |marked| == |words|
  {
    if words == [] then []
    else [if openingSpace then [G_DOT] + words[0] else words[0]] + Marked(words[1..], true)
  }

  lemma {:induction false} MarkedAt(words: seq<string>, openingSpace: bool, w: nat)
    requires w < |words|
    ensures Marked(words, openingSpace)[w] == if w > 0 || openingSpace then "\U{0120}" + words[w] else words[w]
  {
    if w > 0 {
      MarkedAt(words[1..], true, w - 1);
    }
  }

  /**
   * If some token starts with U+0120, `words` are the words of the text, each behind that character
   * unless it is the first and the text does not open with whitespace; otherwise the whole text.
   */
  ghost predicate ArePreTokens(t: Tokenizer, text: string, words: seq<string>) {
    if exists i :: 0 <= i < |t.tokens| && t.tokens[i] != "" && t.tokens[i][0] == '\U{0120}' then
      exists plain, begins ::
        && AreWords(text, plain, begins) && |words| == |plain|
        && forall w :: 0 <= w < |words| ==>
          words[w] == if w > 0 || (text != "" && IsWhitespace(text[0])) then "\U{0120}" + plain[w] else plain[w]
    else
      words == [text]
  }

  lemma {:induction false} WordsOfArePreTokens(t: Tokenizer, text: string)
    ensures ArePreTokens(t, text, WordsOf(t, text))
  {
    hide SplitWhitespace, Marked, IsWhitespace;
    if HasGDot(t) {
      var i :| 0 <= i < |t.tokens| && [G_DOT] <= t.tokens[i];
      assert t.tokens[i] != "" && t.tokens[i][0] == '\U{0120}';
      var plain, opens := SplitWhitespace(text), text != "" && IsWhitespace(text[0]);
      var begins := SplitIsMaximal(text);
      forall w | 0 <= w < |plain|
        ensures Marked(plain, opens)[w] == if w > 0 || opens then "\U{0120}" + plain[w] else plain[w]
      {
        MarkedAt(plain, opens, w);
      }
    } else {
      forall i | 0 <= i < |t.tokens| && t.tokens[i] != "" ensures t.tokens[i][0] != '\U{0120}' {
        assert [t.tokens[i][0]] <= t.tokens[i];
      }
    }
  }

  method PreTokenize(t: Tokenizer, text: string) returns (words: seq<string>)
    ensures words == WordsOf(t, text)
    ensures ArePreTokens(t, text, words)
  {
    hide ArePreTokens;
    WordsOfArePreTokens(t, text);
    if HasGDot(t) {
      words := [];
      var split := SplitWhitespace(text);
      var first := true;
      for i := 0 to |split|
        invariant first == (i == 0)
        invariant words + Marked(split[i..], i > 0) == Marked(split, false)
      {
        assert split[i..][1..] == split[i + 1..];
        Prepend(words, [if i > 0 then [G_DOT] + split[i] else split[i]], Marked(split[i + 1..], true));
        if first {
          words := words + [split[i]];
          first := false;
        } else {
          words := words + [[G_DOT] + split[i]];
        }
      }
      assert split[|split|..] == [];
      assert words == Marked(split, false);
      if text != "" && IsWhitespace(text[0]) && words != [] {
        words := words[0 := [G_DOT] + words[0]];
      }
    } else {
      words := [text];
    }
  }

  function WordsOf(t: Tokenizer, text: string): seq<string> {
    if HasGDot(t)
    then Marked(SplitWhitespace(text), text != "" && IsWhitespace(text[0]))
    else [text]
  }

  // ---------------------------------------------------------------------------------------------
  // The encoder
  // ---------------------------------------------------------------------------------------------

  /** A piece outside the vocabulary is spelled byte by byte, with the unknown token as last resort. */
  function ByteIds(t: Tokenizer, bytes: seq<byte>, n: nat): seq<nat>
    requires n <= |bytes|
  {
    if n == 0 then []
    else
      ByteIds(t, bytes, n - 1) +
      if bytes[n - 1] in t.byteTokens then [t.byteTokens[bytes[n - 1]]]
      else if t.unkId.Some? then [t.unkId.value]
      else []
  }

  function PieceIds(t: Tokenizer, piece: string): seq<nat> {
    if piece in t.tokenToId then [t.tokenToId[piece]]
    else ByteIds(t, EncodeAll(piece), |EncodeAll(piece)|)
  }

  method EncodePiece(t: Tokenizer, piece: string) returns (ids: seq<nat>)
    ensures ids == PieceIds(t, piece)
  {
    if piece in t.tokenToId {
      return [t.tokenToId[piece]];
    }
    ids := [];
    var bytes := EncodeAll(piece);
    for i := 0 to |bytes|
      invariant ids == ByteIds(t, bytes, i)
    {
      if bytes[i] in t.byteTokens {
        ids := ids + [t.byteTokens[bytes[i]]];
      } else if piece in t.tokenToId {
        assert false;
      } else if t.unkId.Some? {
        ids := ids + [t.unkId.value];
      }
    }
  }

  /** The ids of the first `n` pieces. */
  function PiecesIds(t: Tokenizer, pieces: seq<string>, n: nat): seq<nat>
    requires n <= |pieces|
  {
    if n == 0 then [] else PiecesIds(t, pieces, n - 1) + PieceIds(t, pieces[n - 1])
  }

  function WordIds(t: Tokenizer, word: string): seq<nat> {
    var pieces := Merged(t.mergesRank, Characters(word));
    PiecesIds(t, pieces, |pieces|)
  }

  /** The ids of the first `n` words. */
  function WordsIds(t: Tokenizer, words: seq<string>, n: nat): seq<nat>
    requires n <= |words|
  {
    if n == 0 then [] else WordsIds(t, words, n - 1) + WordIds(t, words[n - 1])
  }

  function BpeIds(t: Tokenizer, text: string): seq<nat> {
    var words := WordsOf(t, text);
    var ids := WordsIds(t, words, |words|);
    if text == "" then [] else if ids == [] then GreedyFrom(t, text, 0) else ids
  }

  /** The inner loop, over one word's pieces. */
  method EncodeWord(t: Tokenizer, word: string) returns (ids: seq<nat>)
    ensures ids == WordIds(t, word)
  {
    var pieces := BpeWord(t, word);
    ids := [];
    for i := 0 to |pieces|
      invariant ids == PiecesIds(t, pieces, i)
    {
      var pieceIds := EncodePiece(t, pieces[i]);
      ids := ids + pieceIds;
    }
  }

  method EncodeBpe(t: Tokenizer, text: string) returns (ids: seq<nat>)
    ensures ids == BpeIds(t, text)
  {
    ids := [];
    if text == "" {
      return;
    }
    var words := PreTokenize(t, text);
    for w := 0 to |words|
      invariant ids == WordsIds(t, words, w)
    {
      var wordIds := EncodeWord(t, words[w]);
      ids := ids + wordIds;
    }
    if ids == [] {
      ids := EncodeGreedy(t, text);
    }
  }

  // ---------------------------------------------------------------------------------------------
  // Conservation
  // ---------------------------------------------------------------------------------------------

  /** Every id comes from the token table itself: the byte fallback was not used. */
  predicate NoFallback(t: Tokenizer, pieces: seq<string>, ids: seq<nat>) {
    && |ids| == |pieces|
    && forall i :: 0 <= i < |ids| ==> pieces[i] in t.tokenToId && ids[i] == t.tokenToId[pieces[i]]
  }

  lemma {:induction false} SpelledAppend(t: Tokenizer, a: seq<nat>, b: seq<nat>)
    ensures Spelled(t, a + b) == Spelled(t, a) + Spelled(t, b)
  {
    if a == [] {
      assert a + b == b;
    } else {
      assert (a + b)[1..] == a[1..] + b;
      SpelledAppend(t, a[1..], b);
    }
  }

  lemma {:induction false} ConcatNext(pieces: seq<string>, n: nat)
    requires 0 < n <= |pieces|
    ensures Concat(pieces[..n]) == Concat(pieces[..n - 1]) + pieces[n - 1]
  {
    assert pieces[..n][..n - 1] == pieces[..n - 1];
  }

  lemma {:induction false} SpelledOne(t: Tokenizer, id: nat)
    requires id < |t.tokens|
    ensures Spelled(t, [id]) == t.tokens[id]
  {
    assert [id][1..] == [];
  }

  lemma {:induction false} PiecesById(t: Tokenizer, pieces: seq<string>, n: nat)
    requires n <= |pieces| && InVocabulary(t, pieces)
    ensures NoFallback(t, pieces[..n], PiecesIds(t, pieces, n))
  {
    if n > 0 {
      PiecesById(t, pieces, n - 1);
    }
  }

  lemma {:induction false} PiecesKept(t: Tokenizer, pieces: seq<string>, n: nat)
    requires n <= |pieces| && InVocabulary(t, pieces) && Indexes(t.tokenToId, t.tokens, |t.tokens|)
    ensures Spelled(t, PiecesIds(t, pieces, n)) == Concat(pieces[..n])
  {
    if n > 0 {
      PiecesKept(t, pieces, n - 1);
      var id := t.tokenToId[pieces[n - 1]];
      SpelledAppend(t, PiecesIds(t, pieces, n - 1), [id]);
      SpelledOne(t, id);
      ConcatNext(pieces, n);
    }
  }

  /** One word: its pieces are all tokens, no byte is ever spelled out, and they join to the word. */
  lemma {:induction false} WordKept(t: Tokenizer, word: string)
    requires ProductsInVocabulary(t) && InVocabulary(t, Characters(word))
    requires Indexes(t.tokenToId, t.tokens, |t.tokens|)
    ensures NoFallback(t, Merged(t.mergesRank, Characters(word)), WordIds(t, word))
    ensures Spelled(t, WordIds(t, word)) == word
  {
    var pieces := Merged(t.mergesRank, Characters(word));
    MergedInVocabulary(t, Characters(word));
    MergedKeepsText(t.mergesRank, Characters(word));
    ConcatCharacters(word);
    PiecesById(t, pieces, |pieces|);
    PiecesKept(t, pieces, |pieces|);
    assert pieces[..|pieces|] == pieces;
  }

  lemma {:induction false} WordsKept(t: Tokenizer, words: seq<string>, n: nat)
    requires n <= |words| && ProductsInVocabulary(t)
    requires forall w :: 0 <= w < |words| ==> InVocabulary(t, Characters(words[w]))
    requires Indexes(t.tokenToId, t.tokens, |t.tokens|)
    ensures Spelled(t, WordsIds(t, words, n)) == Concat(words[..n])
  {
    if n > 0 {
      WordsKept(t, words, n - 1);
      WordKept(t, words[n - 1]);
      SpelledAppend(t, WordsIds(t, words, n - 1), WordIds(t, words[n - 1]));
      ConcatNext(words, n);
    }
  }

  predicate WhitespaceOnly(text: string) {
    forall i :: 0 <= i < |text| ==> IsWhitespace(text[i])
  }

  /** Splitting finds a word exactly when there is a character that is no whitespace. */
  lemma {:induction false} SplitFindsWords(text: string)
    ensures SplitWhitespace(text) == [] <==> WhitespaceOnly(text)
  {
    if text != "" {
      if IsWhitespace(text[0]) {
        SplitFindsWords(text[1..]);
        assert text == [text[0]] + text[1..];
      } else {
        assert !WhitespaceOnly(text);
      }
    }
  }

  lemma {:induction false} ConcatFirst(words: seq<string>)
    requires words != [] && words[0] != ""
    ensures Concat(words) != ""
  {
    if |words| > 1 {
      ConcatFirst(words[..|words| - 1]);
    }
  }

  /** The pre-tokenized words of a text are empty exactly when the marker is in use and there is no word. */
  lemma {:induction false} WordsHaveText(t: Tokenizer, text: string)
    ensures Concat(WordsOf(t, text)) == "" <==> text == "" || (HasGDot(t) && WhitespaceOnly(text))
    ensures HasGDot(t) && WhitespaceOnly(text) ==> WordsOf(t, text) == []
  {
    SplitFindsWords(text);
    if HasGDot(t) {
      if WordsOf(t, text) != [] {
        ConcatFirst(WordsOf(t, text));
      }
    } else {
      ConcatOne(text);
    }
  }

  /**
   * With every character and every merge product in the vocabulary, the encoder's tokens join to
   * the pre-tokenized words, so nothing is lost after pre-tokenization; unless the words are none
   * because the text is whitespace and the marker is in use.
   */
  lemma {:induction false} EncodingKeepsWords(t: Tokenizer, text: string)
    requires ProductsInVocabulary(t) && Indexes(t.tokenToId, t.tokens, |t.tokens|)
    requires forall w :: 0 <= w < |WordsOf(t, text)| ==> InVocabulary(t, Characters(WordsOf(t, text)[w]))
    requires HasGDot(t) ==> text == "" || !WhitespaceOnly(text)
    ensures Spelled(t, BpeIds(t, text)) == Concat(WordsOf(t, text))
  {
    var words := WordsOf(t, text);
    WordsHaveText(t, text);
    WordsKept(t, words, |words|);
    assert words[..|words|] == words;
  }

  /** No token starts at position `k`, and what stands in for the character there spells nothing. */
  ghost predicate SilentAt(t: Tokenizer, text: string, k: nat)
    requires k < |text|
  {
    (forall j :: k < j <= |text| ==> !Edge(t, text, k, j)) && Spelled(t, Fallback(t, text[k])) == ""
  }

  /** A match spells something. */
  lemma {:induction false} MatchSpells(t: Tokenizer, text: string, i: nat, j: nat)
    requires Indexes(t.tokenToId, t.tokens, |t.tokens|) && i < j <= |text| && Edge(t, text, i, j)
    ensures forall rest :: Spelled(t, [t.tokenToId[text[i..j]]] + rest) != ""
  {
    hide Spelled;
    var id := t.tokenToId[text[i..j]];
    forall rest ensures Spelled(t, [id] + rest) != "" {
      SpelledAppend(t, [id], rest);
      SpelledOne(t, id);
    }
  }

  lemma {:induction false} GreedyStepIsSilent(t: Tokenizer, text: string, i: nat)
    requires Indexes(t.tokenToId, t.tokens, |t.tokens|) && i < |text|
    ensures Spelled(t, GreedyFrom(t, text, i)) == "" <==> SilentAt(t, text, i) && Spelled(t, GreedyFrom(t, text, i + 1)) == ""
  {
    hide Spelled, Edge, Fallback, Longest;
    LongestIsLongest(t, text, i, |text|);
    match Longest(t, text, i, |text|)
    case Some(j) => MatchSpells(t, text, i, j);
    case None => SpelledAppend(t, Fallback(t, text[i]), GreedyFrom(t, text, i + 1));
  }

  /** The greedy encoder spells nothing exactly when every position is silent. */
  lemma {:induction false} GreedyIsSilent(t: Tokenizer, text: string, i: nat)
    requires Indexes(t.tokenToId, t.tokens, |t.tokens|) && i <= |text|
    ensures Spelled(t, GreedyFrom(t, text, i)) == "" <==> forall k :: i <= k < |text| ==> SilentAt(t, text, k)
    decreases |text| - i
  {
    hide SilentAt;
    if i < |text| {
      GreedyStepIsSilent(t, text, i);
      GreedyIsSilent(t, text, i + 1);
    }
  }

  /** Whitespace alone has no words under the marker, and is left to the greedy encoder. */
  lemma {:induction false} WhitespaceIsGreedy(t: Tokenizer, text: string)
    requires HasGDot(t) && text != "" && WhitespaceOnly(text)
    ensures WordsOf(t, text) == [] && BpeIds(t, text) == GreedyFrom(t, text, 0)
  {
    WordsHaveText(t, text);
  }

  /**
   * The tokens join to the pre-tokenized words exactly when the text has a word, needs no marker,
   * or has no position at which the greedy encoder could spell anything.
   */
  lemma {:induction false} EncodingKeepsWordsExactly(t: Tokenizer, text: string)
    requires ProductsInVocabulary(t) && Indexes(t.tokenToId, t.tokens, |t.tokens|)
    requires forall w :: 0 <= w < |WordsOf(t, text)| ==> InVocabulary(t, Characters(WordsOf(t, text)[w]))
    ensures Spelled(t, BpeIds(t, text)) == Concat(WordsOf(t, text)) <==>
      (HasGDot(t) && text != "" && WhitespaceOnly(text) ==> forall k :: 0 <= k < |text| ==> SilentAt(t, text, k))
  {
    if HasGDot(t) && text != "" && WhitespaceOnly(text) {
      WhitespaceIsGreedy(t, text);
      GreedyIsSilent(t, text, 0);
    } else {
      EncodingKeepsWords(t, text);
    }
  }

  /** So a space that is a token of its own is kept although there is no word. */
  lemma {:induction false} SpaceWithoutWords(t: Tokenizer)
    requires t.tokens == [[G_DOT], " "] && Indexes(t.tokenToId, t.tokens, 2) && t.mergesRank == map[]
    ensures WordsOf(t, " ") == [] && BpeIds(t, " ") == [1] && Spelled(t, BpeIds(t, " ")) == " "
  {
    assert [G_DOT] <= t.tokens[0];
    WhitespaceIsGreedy(t, " ");
    assert t.tokens[1] in t.tokenToId && t.tokenToId[" "] == 1;
    assert " "[0..1] == " ";
    assert Edge(t, " ", 0, 1);
    assert GreedyFrom(t, " ", 1) == [];
    SpelledOne(t, 1);
  }

  // ---------------------------------------------------------------------------------------------
  // What pre-tokenization keeps of a text
  // ---------------------------------------------------------------------------------------------

  /** All whitespace is single spaces, each in front of a word. */
  predicate SingleSpaced(text: string) {
    forall i :: 0 <= i < |text| && IsWhitespace(text[i]) ==>
      text[i] == ' ' && i + 1 < |text| && !IsWhitespace(text[i + 1])
  }

  lemma {:induction false} NormalizeUnmarked(text: string)
    ensures NoMarks(Normalize(text))
    ensures Normalize(text) == text <==> NoMarks(text)
  {
    forall i | 0 <= i < |text|
      ensures Normalize(text)[i] == if text[i] in {'\U{2581}', '\U{0120}'} then ' ' else text[i]
    {
      NormalizeAt(text, i);
    }
  }

  /** The words joined behind their markers, as the decoder shows them. */
  function Rejoined(words: seq<string>, openingSpace: bool): string {
    Normalize(Concat(Marked(words, openingSpace)))
  }

  lemma {:induction false} GDotIsSpace()
    ensures Normalize([G_DOT]) == " "
  {}

  lemma {:induction false} RejoinedFirst(words: seq<string>, openingSpace: bool)
    requires words != []
    ensures Rejoined(words, openingSpace)
         == (if openingSpace then " " else "") + Normalize(words[0]) + Rejoined(words[1..], true)
  {
    hide Concat, Normalize;
    var marked, tail := Marked(words, openingSpace), Marked(words[1..], true);
    assert marked[0] == (if openingSpace then [G_DOT] else "") + words[0] && marked[1..] == tail;
    ConcatFront(marked);
    NormalizeAppend(marked[0], Concat(tail));
    NormalizeAppend([G_DOT], words[0]);
    GDotIsSpace();
    assert "" + words[0] == words[0] && "" + Normalize(words[0]) == Normalize(words[0]);
  }

  /** A single-spaced text that opens with a word: the word, and after one space such a text again. */
  lemma {:induction false} FirstSpaced(text: string) returns (n: nat)
    requires text != "" && !IsWhitespace(text[0]) && SingleSpaced(text) && NoMarks(text)
    ensures 0 < n <= |text| && NoMarks(text[..n])
    ensures n == |text| ==> SplitWhitespace(text) == [text]
    ensures n < |text| ==>
      && text[n] == ' ' && n + 1 < |text| && !IsWhitespace(text[n + 1])
      && SingleSpaced(text[n + 1..]) && NoMarks(text[n + 1..])
      && SplitWhitespace(text) == [text[..n]] + SplitWhitespace(text[n + 1..])
  {
    hide IsWhitespace;
    n := WordLength(text);
    FirstWord(text);
    var rest := text[n..];
    assert SplitWhitespace(text) == [text[..n]] + SplitWhitespace(rest);
    if n < |text| {
      assert rest[0] == text[n] && rest[1..] == text[n + 1..];
      assert SplitWhitespace(rest) == SplitWhitespace(rest[1..]);
      OneCharacterShorter(rest, text, n);
    } else {
      assert text[..n] == text && SplitWhitespace(rest) == [];
    }
  }

  /** Words behind single spaces come back as they were. */
  lemma {:induction false} SingleSpacedRejoins(text: string, openingSpace: bool)
    requires text != "" && !IsWhitespace(text[0]) && SingleSpaced(text) && NoMarks(text)
    ensures Rejoined(SplitWhitespace(text), openingSpace) == (if openingSpace then " " else "") + text
    decreases |text|
  {
    hide IsWhitespace, Rejoined, SplitWhitespace, SingleSpaced, NoMarks;
    var words := SplitWhitespace(text);
    var n := FirstSpaced(text);
    assert words[0] == text[..n];
    RejoinedFirst(words, openingSpace);
    NormalizeUnmarked(text[..n]);
    if n == |text| {
      assert text[..n] == text && words[1..] == [];
      NothingRejoined();
    } else {
      assert words[1..] == SplitWhitespace(text[n + 1..]);
      SingleSpacedRejoins(text[n + 1..], true);
      assert text == text[..n] + (" " + text[n + 1..]);
    }
  }

  lemma {:induction false} NothingRejoined()
    ensures Rejoined([], true) == "" && Rejoined([], false) == ""
  {}

  lemma {:induction false} OneCharacterShorter(rest: string, text: string, n: nat)
    requires n < |text| && rest == text[n..] && SingleSpaced(text) && NoMarks(text)
    ensures SingleSpaced(rest[1..]) && NoMarks(rest[1..])
  {
    hide IsWhitespace;
    forall i | 0 <= i < |rest[1..]| ensures rest[1..][i] == text[n + 1 + i] {
    }
    forall i | 0 <= i < |rest[1..]| && IsWhitespace(rest[1..][i])
      ensures rest[1..][i] == ' ' && i + 1 < |rest[1..]| && !IsWhitespace(rest[1..][i + 1])
    {
      assert IsWhitespace(text[n + 1 + i]);
      assert rest[1..][i + 1] == text[n + 1 + (i + 1)];
    }
  }

  /** What words are joined to is single-spaced, whatever the text looked like. */
  lemma {:induction false} RejoinedIsSingleSpaced(words: seq<string>, openingSpace: bool)
    requires forall w :: 0 <= w < |words| ==> words[w] != "" && NoMarks(words[w])
    requires forall w, i :: 0 <= w < |words| && 0 <= i < |words[w]| ==> !IsWhitespace(words[w][i])
    ensures SingleSpaced(Rejoined(words, openingSpace))
  {
    hide Rejoined;
    if words == [] {
      NothingRejoined();
    } else {
      RejoinedFirst(words, openingSpace);
      NormalizeUnmarked(words[0]);
      RejoinedIsSingleSpaced(words[1..], true);
      SpacedBehind((if openingSpace then " " else "") + words[0], Rejoined(words[1..], true));
    }
  }

  lemma {:induction false} SpacedBehind(a: string, b: string)
    requires SingleSpaced(a) && SingleSpaced(b)
    ensures SingleSpaced(a + b)
  {
    forall i | 0 <= i < |a + b| && IsWhitespace((a + b)[i])
      ensures (a + b)[i] == ' ' && i + 1 < |a + b| && !IsWhitespace((a + b)[i + 1])
    {
      if i < |a| {
        assert IsWhitespace(a[i]) && (a + b)[i + 1] == a[i + 1];
      } else {
        assert IsWhitespace(b[i - |a|]) && (a + b)[i + 1] == b[i - |a| + 1];
      }
    }
  }

  /** The words of a text hold no markers if the text does not, and no whitespace. */
  lemma {:induction false} WordsAreClean(text: string, w: nat)
    requires NoMarks(text) && w < |SplitWhitespace(text)|
    ensures NoMarks(SplitWhitespace(text)[w])
    ensures forall i :: 0 <= i < |SplitWhitespace(text)[w]| ==> !IsWhitespace(SplitWhitespace(text)[w][i])
  {
    hide SplitWhitespace, IsWhitespace;
    var begins := SplitIsMaximal(text);
    var word := SplitWhitespace(text)[w];
    assert IsWordAt(text, word, begins[w]);
    forall i | 0 <= i < |word| ensures word[i] == text[begins[w] + i] && !IsWhitespace(word[i]) {
    }
  }

  /**
   * Pre-tokenization, seen through the decoder's markers, keeps exactly the texts without marker
   * characters whose whitespace is single spaces in front of words, or any whitespace when the
   * vocabulary has no marker.
   */
  lemma {:induction false} PreTokenizingExactly(t: Tokenizer, text: string)
    ensures Normalize(Concat(WordsOf(t, text))) == text <==> NoMarks(text) && (HasGDot(t) ==> SingleSpaced(text))
  {
    hide NoMarks, SingleSpaced, IsWhitespace, SplitWhitespace, Marked;
    NormalizeUnmarked(Concat(WordsOf(t, text)));
    NormalizeUnmarked(text);
    if !HasGDot(t) {
      ConcatOne(text);
    } else if NoMarks(text) {
      SpacesExactly(text);
    }
  }

  lemma {:induction false} SpacesExactly(text: string)
    requires NoMarks(text)
    ensures Rejoined(SplitWhitespace(text), text != "" && IsWhitespace(text[0])) == text <==> SingleSpaced(text)
  {
    hide Rejoined, IsWhitespace;
    var words, opens := SplitWhitespace(text), text != "" && IsWhitespace(text[0]);
    forall w | 0 <= w < |words|
      ensures words[w] != "" && NoMarks(words[w]) && forall i :: 0 <= i < |words[w]| ==> !IsWhitespace(words[w][i])
    {
      WordsAreClean(text, w);
    }
    RejoinedIsSingleSpaced(words, opens);
    if SingleSpaced(text) {
      if text == "" {
        NothingRejoined();
      } else if opens {
        OneCharacterShorter(text, text, 0);
        SingleSpacedRejoins(text[1..], true);
        assert text == " " + text[1..];
      } else {
        SingleSpacedRejoins(text, false);
      }
    }
  }
}
