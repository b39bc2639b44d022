/**
 * SentencePiece unigram encoding: the dynamic program finds a best segmentation whenever one
 * exists, and decoding what it returns gives the text back.
 */
module SentencePiece {
  import opened Prelude
  import opened Utf8
  import opened Vocabulary
  import opened TokenDecoding

  /** The longest token the encoder looks for, in characters. */
  const MAX_PIECE: nat := 32

  // ---------------------------------------------------------------------------------------------
  // Segmentations and their scores
  // ---------------------------------------------------------------------------------------------

  function Concat(pieces: seq<string>): string {
    if pieces == [] then "" else Concat(pieces[..|pieces| - 1]) + pieces[|pieces| - 1]
  }

  /** Tokens without a score count as zero. */
  function ScoreOf(t: Tokenizer, piece: string): real
    requires piece in t.tokenToId
  {
    var id := t.tokenToId[piece];
    if id < |t.scores| then t.scores[id] else 0.0
  }

  predicate Usable(t: Tokenizer, piece: string) {
    1 <= |piece| <= 32 && piece in t.tokenToId
  }

  predicate AllUsable(t: Tokenizer, pieces: seq<string>) {
    forall i :: 0 <= i < |pieces| ==> Usable(t, pieces[i])
  }

  /** `pieces` cuts `text` into vocabulary tokens of at most 32 characters. */
  predicate Segments(t: Tokenizer, pieces: seq<string>, text: string) {
    AllUsable(t, pieces) && Concat(pieces) == text
  }

  function Total(t: Tokenizer, pieces: seq<string>): real
    requires AllUsable(t, pieces)
  {
    if pieces == [] then 0.0
    else Total(t, pieces[..|pieces| - 1]) + ScoreOf(t, pieces[|pieces| - 1])
  }

  function IdsOf(t: Tokenizer, pieces: seq<string>): (ids: seq<nat>)
    requires AllUsable(t, pieces)
    ensures |ids| == |pieces|
    ensures forall i :: 0 <= i < |pieces| ==> ids[i] == t.tokenToId[pieces[i]]
  {
    seq(|pieces|, i requires 0 <= i < |pieces| => t.tokenToId[pieces[i]])
  }

  /** No segmentation of the same text scores higher. */
  ghost predicate Optimal(t: Tokenizer, pieces: seq<string>, text: string) {
    && Segments(t, pieces, text)
    && forall other :: Segments(t, other, text) ==> Total(t, other) <= Total(t, pieces)
  }

  lemma {:induction false} SegmentsAppend(t: Tokenizer, pieces: seq<string>, head: string, piece: string)
    requires Segments(t, pieces, head) && Usable(t, piece)
    ensures Segments(t, pieces + [piece], head + piece)
    ensures Total(t, pieces + [piece]) == Total(t, pieces) + ScoreOf(t, piece)
  {
    assert (pieces + [piece])[..|pieces|] == pieces;
  }

  // ---------------------------------------------------------------------------------------------
  // The tables
  // ---------------------------------------------------------------------------------------------

  /**
   * The three arrays by position, and with them one segmentation for every position reached.
   * A score of `None` is negative infinity: no segmentation of that prefix has been found.
   */
  datatype Table = Table(best: seq<Option<real>>, id: seq<Option<nat>>, prev: seq<nat>, paths: seq<seq<string>>) {
    predicate Sized(n: nat) {
      |best| == |id| == |prev| == |paths| == n
    }
  }

  predicate Edge(t: Tokenizer, text: string, i: nat, j: nat) {
    i < j <= |text| && j - i <= MAX_PIECE && text[i..j] in t.tokenToId
  }

  /** The edge from `i` to `j` cannot improve `j` any more. */
  predicate Relaxed(t: Tokenizer, text: string, table: Table, i: nat, j: nat)
    requires table.Sized(|text| + 1)
  {
    Edge(t, text, i, j) && table.best[i].Some? ==>
      table.best[j].Some? && table.best[j].value >= table.best[i].value + ScoreOf(t, text[i..j])
  }

  /** The edges from the first `i` positions are all relaxed. */
  ghost predicate RelaxedBelow(t: Tokenizer, text: string, table: Table, i: nat)
    requires table.Sized(|text| + 1)
  {
    forall h, j :: 0 <= h < i && h < j <= |text| ==> Relaxed(t, text, table, h, j)
  }

  /**
   * A scored cell has a segmentation of its prefix with that score, and its back link, which is
   * no later than `limit`, is that segmentation's last step.
   */
  predicate Cell(t: Tokenizer, text: string, table: Table, limit: nat, j: nat)
    requires j <= |text| && table.Sized(|text| + 1)
  {
    table.best[j].Some? ==>
      && Segments(t, table.paths[j], text[..j]) && Total(t, table.paths[j]) == table.best[j].value
      && (j > 0 ==>
        var i := table.prev[j];
        && i <= limit && Edge(t, text, i, j) && table.best[i].Some?
        && table.id[j] == Some(t.tokenToId[text[i..j]])
        && table.paths[j] == table.paths[i] + [text[i..j]])
  }

  ghost predicate Cells(t: Tokenizer, text: string, table: Table, limit: nat) {
    && table.Sized(|text| + 1)
    && table.best[0] == Some(0.0) && table.paths[0] == []
    && forall j :: 0 <= j <= |text| ==> Cell(t, text, table, limit, j)
  }

  /** Once every edge is relaxed, a cell bounds the score of every segmentation of its prefix. */
  lemma {:induction false} CellsBoundAll(t: Tokenizer, text: string, table: Table, pieces: seq<string>, j: nat)
    requires table.Sized(|text| + 1) && j <= |text|
    requires table.best[0] == Some(0.0)
    requires RelaxedBelow(t, text, table, |text|)
    requires Segments(t, pieces, text[..j])
    ensures table.best[j].Some? && Total(t, pieces) <= table.best[j].value
    decreases |pieces|
  {
    if pieces != [] {
      var last := pieces[|pieces| - 1];
      var front := pieces[..|pieces| - 1];
      var i := j - |last|;
      assert text[..j] == Concat(front) + last;
      assert text[..j][..i] == text[..i] && text[..j][i..] == text[i..j];
      assert Concat(front) == text[..i] && text[i..j] == last;
      CellsBoundAll(t, text, table, front, i);
      assert Relaxed(t, text, table, i, j);
    }
  }

  /** The table after finding a better way into `j` from `i`. */
  function Improved(t: Tokenizer, text: string, table: Table, i: nat, j: nat): Table
    requires table.Sized(|text| + 1) && Edge(t, text, i, j) && table.best[i].Some?
  {
    Table(
      table.best[j := Some(table.best[i].value + ScoreOf(t, text[i..j]))],
      table.id[j := Some(t.tokenToId[text[i..j]])],
      table.prev[j := i],
      table.paths[j := table.paths[i] + [text[i..j]]])
  }

  lemma {:induction false} ImprovedKeepsCells(t: Tokenizer, text: string, table: Table, i: nat, j: nat)
    requires Cells(t, text, table, i) && Edge(t, text, i, j) && table.best[i].Some?
    ensures Cells(t, text, Improved(t, text, table, i, j), i)
  {
    assert Cell(t, text, table, i, i);
    SegmentsAppend(t, table.paths[i], text[..i], text[i..j]);
    assert text[..i] + text[i..j] == text[..j];
    var after := Improved(t, text, table, i, j);
    assert Cell(t, text, after, i, j);
    forall k | 0 <= k <= |text| ensures Cell(t, text, after, i, k) {
      assert Cell(t, text, table, i, k);
    }
  }

  lemma {:induction false} ImprovedKeepsRelaxed(t: Tokenizer, text: string, table: Table, i: nat, j: nat, h: nat, k: nat)
    requires table.Sized(|text| + 1) && Edge(t, text, i, j) && table.best[i].Some?
    requires table.best[j].Some? ==> table.best[j].value < table.best[i].value + ScoreOf(t, text[i..j])
    requires h <= i && h < k <= |text| && Relaxed(t, text, table, h, k)
    ensures Relaxed(t, text, Improved(t, text, table, i, j), h, k)
  {}

  // ---------------------------------------------------------------------------------------------
  // The encoder
  // ---------------------------------------------------------------------------------------------

  /** The arrays hold the first three columns of `table`. */
  predicate Holds(best: array<Option<real>>, id: array<Option<nat>>, prev: array<nat>, table: Table)
    reads best, id, prev
  {
    best[..] == table.best && id[..] == table.id && prev[..] == table.prev
  }

  /** One row: every token of at most 32 characters that starts at `i`. */
  method RelaxFrom(t: Tokenizer, text: string, best: array<Option<real>>, id: array<Option<nat>>, prev: array<nat>,
                   i: nat, ghost before: Table) returns (ghost table: Table)
    requires i < |text| && Cells(t, text, before, i) && RelaxedBelow(t, text, before, i)
    requires Holds(best, id, prev, before) && before.best[i].Some?
    modifies best, id, prev
    ensures Cells(t, text, table, i) && RelaxedBelow(t, text, table, i + 1)
    ensures Holds(best, id, prev, table)
  {
    table := before;
    var maxLen := Min(|text| - i, MAX_PIECE);
    for len := 1 to maxLen + 1
      invariant Cells(t, text, table, i) && RelaxedBelow(t, text, table, i)
      invariant Holds(best, id, prev, table)
      invariant table.best[i] == before.best[i]
      invariant forall j :: i < j < i + len ==> Relaxed(t, text, table, i, j)
    {
      var j := i + len;
      var piece := text[i..j];
      if piece in t.tokenToId {
        var tokenId := t.tokenToId[piece];
        var score := if tokenId < |t.scores| then t.scores[tokenId] else 0.0;
        var newScore := best[i].value + score;
        if best[j].None? || newScore > best[j].value {
          best[j] := Some(newScore);
          id[j] := Some(tokenId);
          prev[j] := i;
          ghost var was := table;
          table := Improved(t, text, was, i, j);
          ImprovedKeepsCells(t, text, was, i, j);
          forall h, k | 0 <= h <= i && h < k <= |text| && Relaxed(t, text, was, h, k)
            ensures Relaxed(t, text, table, h, k)
          {
            ImprovedKeepsRelaxed(t, text, was, i, j, h, k);
          }
        }
      }
    }
    forall j | i < j <= |text| ensures Relaxed(t, text, table, i, j) {}
  }

  /** The whole table: every reachable position in order. */
  method FillTable(t: Tokenizer, text: string, best: array<Option<real>>, id: array<Option<nat>>, prev: array<nat>)
    returns (ghost table: Table)
    requires best.Length == id.Length == prev.Length == |text| + 1
    requires forall j :: 0 <= j <= |text| ==> best[j] == None
    modifies best, id, prev
    ensures Cells(t, text, table, |text|) && RelaxedBelow(t, text, table, |text|)
    ensures Holds(best, id, prev, table)
  {
    best[0] := Some(0.0);
    table := Table(best[..], id[..], prev[..], seq(|text| + 1, _ => []));
    for i := 0 to |text|
      invariant Cells(t, text, table, i) && RelaxedBelow(t, text, table, i)
      invariant Holds(best, id, prev, table)
    {
      if best[i].Some? {
        table := RelaxFrom(t, text, best, id, prev, i, table);
      }
      CellsLater(t, text, table, i, i + 1);
    }
  }

  lemma {:induction false} CellsLater(t: Tokenizer, text: string, table: Table, limit: nat, later: nat)
    requires Cells(t, text, table, limit) && limit <= later
    ensures Cells(t, text, table, later)
  {
    forall j | 0 <= j <= |text| ensures Cell(t, text, table, later, j) {
      assert Cell(t, text, table, limit, j);
    }
  }

  function Reversed<T>(s: seq<T>): (r: seq<T>)
    ensures |r| == |s|
  {
    if s == [] then [] else [s[|s| - 1]] + Reversed(s[..|s| - 1])
  }

  /** Where a scored cell's back link leads, and the token on the way. */
  lemma {:induction false} BackLink(t: Tokenizer, text: string, table: Table, pos: nat)
    requires Cells(t, text, table, |text|) && 0 < pos <= |text| && table.best[pos].Some?
    ensures
      var i := table.prev[pos];
      && i < pos && table.best[i].Some? && Usable(t, text[i..pos])
      && table.id[pos] == Some(t.tokenToId[text[i..pos]]) && table.paths[pos] == table.paths[i] + [text[i..pos]]
  {
    hide Segments, Total;
    assert Cell(t, text, table, |text|, pos);
  }

  lemma {:induction false} WholePath(t: Tokenizer, text: string, table: Table)
    requires Cells(t, text, table, |text|) && table.best[|text|].Some?
    ensures AllUsable(t, table.paths[|text|])
  {
    hide Total;
    assert Cell(t, text, table, |text|, |text|);
  }

  lemma {:induction false} PieceInFront(t: Tokenizer, piece: string, tail: seq<string>, backwards: seq<nat>)
    requires AllUsable(t, tail) && Usable(t, piece) && Reversed(backwards) == IdsOf(t, tail)
    ensures AllUsable(t, [piece] + tail)
    ensures Reversed(backwards + [t.tokenToId[piece]]) == IdsOf(t, [piece] + tail)
  {
    var id := t.tokenToId[piece];
    assert (backwards + [id])[..|backwards|] == backwards;
    assert IdsOf(t, [piece] + tail) == [id] + IdsOf(t, tail);
  }

  /** The back links spell out the segmentation stored for the last position. */
  method Backtrack(t: Tokenizer, text: string, id: seq<Option<nat>>, prev: seq<nat>, ghost table: Table)
    returns (ids: seq<nat>)
    requires Cells(t, text, table, |text|) && table.best[|text|].Some?
    requires id == table.id && prev == table.prev
    ensures AllUsable(t, table.paths[|text|]) && ids == IdsOf(t, table.paths[|text|])
  {
    hide Cell, Usable, Segments, Total, IdsOf, Reversed;
    var backwards: seq<nat> := [];
    var pos: nat := |text|;
    ghost var tail: seq<string> := [];
    ghost var path := table.paths[|text|];
    WholePath(t, text, table);
    NothingReversed(t);
    while pos > 0
      invariant pos <= |text| && table.best[pos].Some?
      invariant path == table.paths[pos] + tail
      invariant AllUsable(t, tail) && Reversed(backwards) == IdsOf(t, tail)
      decreases pos
    {
      BackLink(t, text, table, pos);
      match id[pos]
      case Some(tokenId) =>
        ghost var piece := text[prev[pos]..pos];
        Prepend(table.paths[prev[pos]], [piece], tail);
        PieceInFront(t, piece, tail, backwards);
        tail := [piece] + tail;
        backwards := backwards + [tokenId];
        pos := prev[pos];
      case None =>
        assert false;
    }
    assert path == tail;
    ids := Reversed(backwards);
  }

  lemma {:induction false} NothingReversed(t: Tokenizer)
    ensures Reversed([]) == IdsOf(t, [])
  {}

  // ---------------------------------------------------------------------------------------------
  // Preprocessing and the greedy fallback
  // ---------------------------------------------------------------------------------------------

  /** Some token contains the space marker. */
  predicate HasMark(t: Tokenizer) {
    exists i :: 0 <= i < |t.tokens| && SPACE_MARK in t.tokens[i]
  }

  function MarkSpaces(text: string): (marked: string)
    ensures |marked| == |text|
  {
    if text == "" then "" else [if text[0] == ' ' then SPACE_MARK else text[0]] + MarkSpaces(text[1..])
  }

  /** With a marker in the vocabulary, spaces become markers and one is put in front if none is there. */
  function Preprocess(t: Tokenizer, text: string): string {
    if HasMark(t) then
      var marked := MarkSpaces(text);
      if [SPACE_MARK] <= marked || text == "" then marked else [SPACE_MARK] + marked
    else
      text
  }

  /** The end of the longest token starting at `i` and ending no later than `limit`. */
  function Longest(t: Tokenizer, text: string, i: nat, limit: nat): Option<nat>
    requires i <= limit <= |text|
  {
    if limit == i then None
    else if Edge(t, text, i, limit) then Some(limit)
    else Longest(t, text, i, limit - 1)
  }

  lemma {:induction false} LongestIsLongest(t: Tokenizer, text: string, i: nat, limit: nat)
    requires i <= limit <= |text|
    ensures Longest(t, text, i, limit).None? ==> forall j :: i < j <= limit ==> !Edge(t, text, i, j)
    ensures
      var found := Longest(t, text, i, limit);
      found.Some? ==>
        && i < found.value <= limit && Edge(t, text, i, found.value)
        && forall j :: found.value < j <= limit ==> !Edge(t, text, i, j)
  {
    if i < limit && !Edge(t, text, i, limit) {
      LongestIsLongest(t, text, i, limit - 1);
    }
  }

  /** What stands in for a character no token starts with: its first byte's token, or unknown, or nothing. */
  function Fallback(t: Tokenizer, c: char): seq<nat> {
    var first := Encode(c)[0];
    if first in t.byteTokens then [t.byteTokens[first]]
    else if t.unkId.Some? then [t.unkId.value]
    else []
  }

  /** Longest match from `i` on. */
  function GreedyFrom(t: Tokenizer, text: string, i: nat): seq<nat>
    requires i <= |text|
    decreases |text| - i
  {
    if i == |text| then []
    else
      LongestIsLongest(t, text, i, |text|);
      match Longest(t, text, i, |text|)
      case Some(j) => [t.tokenToId[text[i..j]]] + GreedyFrom(t, text, j)
      case None => Fallback(t, text[i]) + GreedyFrom(t, text, i + 1)
  }

  /** The inner loop: shorter and shorter candidates, skipping those over the length limit. */
  method FindLongest(t: Tokenizer, text: string, i: nat) returns (found: Option<nat>)
    requires i <= |text|
    ensures found == Longest(t, text, i, |text|)
  {
    var j: nat := |text|;
    while j > i
      invariant i <= j <= |text|
      invariant Longest(t, text, i, |text|) == Longest(t, text, i, j)
    {
      if j - i <= MAX_PIECE && text[i..j] in t.tokenToId {
        return Some(j);
      }
      j := j - 1;
    }
    found := None;
  }

  method EncodeGreedy(t: Tokenizer, text: string) returns (ids: seq<nat>)
    ensures ids == GreedyFrom(t, text, 0)
  {
    hide GreedyFrom, Longest, Fallback;
    ids := [];
    var i: nat := 0;
    while i < |text|
      invariant i <= |text|
      invariant GreedyFrom(t, text, 0) == ids + GreedyFrom(t, text, i)
    {
      var step, next := GreedyStep(t, text, i);
      Prepend(ids, step, GreedyFrom(t, text, next));
      ids := ids + step;
      i := next;
    }
    GreedyEnd(t, text);
  }

  lemma {:induction false} GreedyEnd(t: Tokenizer, text: string)
    ensures GreedyFrom(t, text, |text|) == []
  {}

  /** One turn: the longest match, or what stands in for one character. */
  method GreedyStep(t: Tokenizer, text: string, i: nat) returns (step: seq<nat>, next: nat)
    requires i < |text|
    ensures i < next <= |text| && GreedyFrom(t, text, i) == step + GreedyFrom(t, text, next)
  {
    LongestIsLongest(t, text, i, |text|);
    var found := FindLongest(t, text, i);
    match found
    case Some(j) =>
      return [t.tokenToId[text[i..j]]], j;
    case None =>
      // The one-character token was the last candidate, so it cannot match now.
      assert !Edge(t, text, i, i + 1);
      if text[i..i + 1] in t.tokenToId {
        assert false;
      }
      var first := Encode(text[i])[0];
      step := if first in t.byteTokens then [t.byteTokens[first]]
              else if t.unkId.Some? then [t.unkId.value]
              else [];
      next := i + 1;
  }

  /** The tokens an id sequence stands for, joined. */
  function Spelled(t: Tokenizer, ids: seq<nat>): string {
    if ids == [] then ""
    else (if ids[0] < |t.tokens| then t.tokens[ids[0]] else "") + Spelled(t, ids[1..])
  }

  /** When every character is a token the greedy encoder loses nothing, whatever it matches. */
  lemma {:induction false} GreedyCovers(t: Tokenizer, text: string, i: nat)
    requires i <= |text|
    requires Indexes(t.tokenToId, t.tokens, |t.tokens|)
    requires forall k :: 0 <= k < |text| ==> [text[k]] in t.tokenToId
    ensures Spelled(t, GreedyFrom(t, text, i)) == text[i..]
    decreases |text| - i
  {
    if i < |text| {
      LongestIsLongest(t, text, i, |text|);
      assert text[i..i + 1] == [text[i]];
      assert Edge(t, text, i, i + 1);
      var j := Longest(t, text, i, |text|).value;
      GreedyCovers(t, text, j);
      assert text[i..] == text[i..j] + text[j..];
    }
  }

  // ---------------------------------------------------------------------------------------------
  // The encoder
  // ---------------------------------------------------------------------------------------------

  /**
   * If the preprocessed text has a segmentation, the ids are those of one with the highest total
   * score; the greedy fallback is taken exactly when it has none.
   */
  method EncodeSentencePiece(t: Tokenizer, text: string) returns (ids: seq<nat>, ghost best: seq<string>)
    ensures text == "" ==> ids == []
    ensures text != "" && (exists pieces :: Segments(t, pieces, Preprocess(t, text))) ==>
      Optimal(t, best, Preprocess(t, text)) && ids == IdsOf(t, best)
    ensures text != "" && !(exists pieces :: Segments(t, pieces, Preprocess(t, text))) ==>
      ids == GreedyFrom(t, Preprocess(t, text), 0)
  {
    best := [];
    if text == "" {
      return [], [];
    }
    var processed := Preprocess(t, text);
    var n := |processed|;
    var bestScore := new Option<real>[n + 1](_ => None);
    var bestId := new Option<nat>[n + 1](_ => None);
    var bestPrev := new nat[n + 1](_ => 0);
    ghost var table := FillTable(t, processed, bestScore, bestId, bestPrev);
    assert processed[..n] == processed;
    forall pieces | Segments(t, pieces, processed)
      ensures table.best[n].Some? && Total(t, pieces) <= table.best[n].value
    {
      CellsBoundAll(t, processed, table, pieces, n);
    }
    if bestScore[n].None? {
      ids := EncodeGreedy(t, processed);
    } else {
      assert Cell(t, processed, table, n, n);
      best := table.paths[n];
      ids := Backtrack(t, processed, bestId[..], bestPrev[..], table);
    }
  }

  // ---------------------------------------------------------------------------------------------
  // Round trip
  // ---------------------------------------------------------------------------------------------

  predicate NoMarks(text: string) {
    forall i :: 0 <= i < |text| ==> text[i] != SPACE_MARK && text[i] != G_DOT
  }

  lemma {:induction false} NormalizeMarked(text: string)
    requires NoMarks(text)
    ensures Normalize(MarkSpaces(text)) == text
  {
    if text != "" {
      NormalizeMarked(text[1..]);
      assert MarkSpaces(text)[1..] == MarkSpaces(text[1..]);
    }
  }

  lemma {:induction false} MarkSpacesAt(text: string, i: nat)
    requires i < |text|
    ensures MarkSpaces(text)[i] == if text[i] == ' ' then '\U{2581}' else text[i]
  {
    if i > 0 {
      MarkSpacesAt(text[1..], i - 1);
    }
  }

  /**
   * If U+2581 occurs in some token, every space becomes U+2581 and one is put in front of a text that
   * then does not open with one; otherwise nothing changes.
   */
  lemma {:induction false} PreprocessExactly(t: Tokenizer, text: string)
    ensures
      var processed := Preprocess(t, text);
      if !exists i, j :: 0 <= i < |t.tokens| && 0 <= j < |t.tokens[i]| && t.tokens[i][j] == '\U{2581}' then processed == text
      else
        var added := if text == "" || text[0] in {' ', '\U{2581}'} then 0 else 1;
        && |processed| == added + |text| && (added == 1 ==> processed[0] == '\U{2581}')
        && forall i :: 0 <= i < |text| ==> processed[added + i] == if text[i] == ' ' then '\U{2581}' else text[i]
  {
    if HasMark(t) {
      var i :| 0 <= i < |t.tokens| && SPACE_MARK in t.tokens[i];
      var j :| 0 <= j < |t.tokens[i]| && t.tokens[i][j] == SPACE_MARK;
      forall k | 0 <= k < |text| ensures MarkSpaces(text)[k] == if text[k] == ' ' then '\U{2581}' else text[k] {
        MarkSpacesAt(text, k);
      }
    } else {
      forall i, j | 0 <= i < |t.tokens| && 0 <= j < |t.tokens[i]| ensures t.tokens[i][j] != '\U{2581}' {
        assert t.tokens[i][j] in t.tokens[i];
      }
    }
  }

  /** As the decoder sees it, preprocessing puts a space in front of a text that does not open with one. */
  lemma {:induction false} NormalizePreprocessed(t: Tokenizer, text: string)
    requires HasMark(t) && NoMarks(text)
    ensures Normalize(Preprocess(t, text)) == (if text == "" || text[0] == ' ' then "" else " ") + text
  {
    NormalizeMarked(text);
    NormalizeAppend([SPACE_MARK], MarkSpaces(text));
    assert Normalize([SPACE_MARK]) == " ";
  }

  predicate AllText(t: Tokenizer, ids: seq<nat>) {
    forall i :: 0 <= i < |ids| ==> PieceOf(t, ids[i]).Text?
  }

  function TextsOf(pieces: seq<string>): seq<Piece> {
    if pieces == [] then [] else [Text(Normalize(pieces[0]))] + TextsOf(pieces[1..])
  }

  lemma {:induction false} ConcatFront(pieces: seq<string>)
    requires pieces != []
    ensures Concat(pieces) == pieces[0] + Concat(pieces[1..])
  {
    if |pieces| > 1 {
      var n := |pieces| - 1;
      ConcatFront(pieces[..n]);
      assert pieces[..n][1..] == pieces[1..][..n - 1];
      Prepend(pieces[0], Concat(pieces[1..][..n - 1]), pieces[n]);
    }
  }

  lemma {:induction false} BatchText(text: string, rest: seq<Piece>)
    ensures Batch([Text(text)] + rest, []) == text + Batch(rest, [])
  {
    assert ([Text(text)] + rest)[1..] == rest && "" + text == text;
  }

  lemma {:induction false} BatchOfTexts(pieces: seq<string>)
    ensures Batch(TextsOf(pieces), []) == Normalize(Concat(pieces))
  {
    if pieces != [] {
      hide Concat, Normalize, Batch;
      assert TextsOf(pieces) == [Text(Normalize(pieces[0]))] + TextsOf(pieces[1..]);
      BatchOfTexts(pieces[1..]);
      ConcatFront(pieces);
      NormalizeAppend(pieces[0], Concat(pieces[1..]));
      BatchText(Normalize(pieces[0]), TextsOf(pieces[1..]));
    }
  }

  lemma {:induction false} TextPiece(t: Tokenizer, id: nat)
    requires PieceOf(t, id).Text?
    ensures id < |t.tokens| && PieceOf(t, id) == Text(Normalize(t.tokens[id]))
  {}

  /** Chosen tokens that print contribute their own strings. */
  lemma {:induction false} PiecesAreTexts(t: Tokenizer, pieces: seq<string>)
    requires AllUsable(t, pieces) && Indexes(t.tokenToId, t.tokens, |t.tokens|)
    requires AllText(t, IdsOf(t, pieces))
    ensures Pieces(t, IdsOf(t, pieces)) == TextsOf(pieces)
  {
    if pieces != [] {
      var ids := IdsOf(t, pieces);
      TextPiece(t, ids[0]);
      assert IdsOf(t, pieces[1..]) == ids[1..];
      PiecesAreTexts(t, pieces[1..]);
    }
  }

  /**
   * Decoding what the encoder returned gives the text back without its leading whitespace, for a llama
   * vocabulary with a space marker and a text without marker characters, when the chosen tokens print
   * as text: none is a byte form or a suppressed control token.
   */
  lemma {:induction false} DecodeAfterEncode(t: Tokenizer, text: string, pieces: seq<string>)
    requires t.model == "llama" && HasMark(t) && Indexes(t.tokenToId, t.tokens, |t.tokens|) && NoMarks(text)
    requires Segments(t, pieces, Preprocess(t, text)) && AllText(t, IdsOf(t, pieces))
    ensures Decoded(t, IdsOf(t, pieces)) == TrimStart(text)
  {
    hide Pieces, Batch, TextsOf, Normalize, Preprocess, IdsOf, NoMarks;
    PiecesAreTexts(t, pieces);
    BatchOfTexts(pieces);
    NormalizePreprocessed(t, text);
    assert (" " + text)[1..] == text && "" + text == text;
    assert TrimStart(" " + text) == TrimStart(text);
  }

  /** The encoder and the decoder, one after the other; nothing is trimmed off a text that opens with a word. */
  method RoundTrip(t: Tokenizer, text: string) returns (again: string)
    requires t.model == "llama" && HasMark(t) && Indexes(t.tokenToId, t.tokens, |t.tokens|) && NoMarks(text)
    requires exists pieces :: Segments(t, pieces, Preprocess(t, text))
    requires forall pieces :: Optimal(t, pieces, Preprocess(t, text)) ==> AllText(t, IdsOf(t, pieces))
    ensures again == TrimStart(text)
    ensures again == text <==> text == "" || !IsWhitespace(text[0])
  {
    var ids, best := EncodeSentencePiece(t, text);
    again := Decode(t, ids);
    if text != "" {
      DecodeAfterEncode(t, text, best);
      TrimStartShortens(text);
    }
  }

  lemma {:induction false} TrimStartShortens(text: string)
    ensures |TrimStart(text)| <= |text|
    ensures TrimStart(text) == text <==> text == "" || !IsWhitespace(text[0])
  {
    if text != "" && IsWhitespace(text[0]) {
      TrimStartShortens(text[1..]);
    }
  }
}
