/**
 * Encoding around special tokens: the text is cut where the longest special token matches, and
 * only the stretches between matches reach the ordinary encoder.
 */
module SpecialTokens {
  import opened Prelude
  import opened Utf8
  import opened Vocabulary
  import opened SentencePiece
  import opened Bpe

  // ---------------------------------------------------------------------------------------------
  // Matching
  // ---------------------------------------------------------------------------------------------

  predicate MatchesAt(text: string, cursor: nat, token: string) {
    cursor <= |text| && token <= text[cursor..]
  }

  /** The special tokens are vocabulary entries of more than one byte, longest first. */
  ghost predicate Prepared(t: Tokenizer) {
    && (forall k :: 0 <= k < |t.specialTokens| ==>
      var (token, id) := t.specialTokens[k];
      |EncodeAll(token)| > 1 && id < |t.tokens| && t.tokens[id] == token)
    && forall j, k :: 0 <= j < k < |t.specialTokens| ==>
      |EncodeAll(t.specialTokens[j].0)| >= |EncodeAll(t.specialTokens[k].0)|
  }

  /** The first special token that matches at `cursor`, from the `k`-th on. */
  function FirstMatch(t: Tokenizer, text: string, cursor: nat, k: nat): (found: Option<nat>)
    requires k <= |t.specialTokens|
    ensures found.Some? ==>
      k <= found.value < |t.specialTokens| && MatchesAt(text, cursor, t.specialTokens[found.value].0)
    ensures forall j :: k <= j < (if found.Some? then found.value else |t.specialTokens|) ==>
      !MatchesAt(text, cursor, t.specialTokens[j].0)
    decreases |t.specialTokens| - k
  {
    if k == |t.specialTokens| then None
    else if MatchesAt(text, cursor, t.specialTokens[k].0) then Some(k)
    else FirstMatch(t, text, cursor, k + 1)
  }

  lemma {:induction false} PrefixEncodesShorter(a: string, b: string)
    ensures a < b ==> |EncodeAll(a)| < |EncodeAll(b)|
  {
    if a < b {
      assert b == a + b[|a|..];
      EncodeAllAppend(a, b[|a|..]);
    }
  }

  /** A special token is found at `cursor` exactly when the text goes on with one. */
  lemma {:induction false} FirstMatchExactly(t: Tokenizer, text: string, cursor: nat)
    requires cursor <= |text|
    ensures FirstMatch(t, text, cursor, 0).Some? <==>
      exists k :: 0 <= k < |t.specialTokens| && GoesOn(text, cursor, t.specialTokens[k].0)
    ensures FirstMatch(t, text, cursor, 0).Some? ==>
      GoesOn(text, cursor, t.specialTokens[FirstMatch(t, text, cursor, 0).value].0)
  {
    forall k | 0 <= k < |t.specialTokens|
      ensures MatchesAt(text, cursor, t.specialTokens[k].0) <==> GoesOn(text, cursor, t.specialTokens[k].0)
    {
      var token := t.specialTokens[k].0;
      if cursor + |token| <= |text| {
        assert text[cursor..][..|token|] == text[cursor..cursor + |token|];
      }
    }
  }

  predicate GoesOn(text: string, cursor: nat, token: string) {
    cursor + |token| <= |text| && text[cursor..cursor + |token|] == token
  }

  /** Whichever special token is taken, no other that matches there is longer. */
  lemma {:induction false} FirstMatchIsLongest(t: Tokenizer, text: string, cursor: nat, other: nat)
    requires Prepared(t) && other < |t.specialTokens| && GoesOn(text, cursor, t.specialTokens[other].0)
    ensures FirstMatch(t, text, cursor, 0).Some?
    ensures t.specialTokens[other].0 <= t.specialTokens[FirstMatch(t, text, cursor, 0).value].0
  {
    FirstMatchExactly(t, text, cursor);
    var k := FirstMatch(t, text, cursor, 0).value;
    assert text[cursor..][..|t.specialTokens[other].0|] == t.specialTokens[other].0;
    PrefixEncodesShorter(t.specialTokens[k].0, t.specialTokens[other].0);
  }

  // ---------------------------------------------------------------------------------------------
  // Cutting the text
  // ---------------------------------------------------------------------------------------------

  datatype Chunk =
    | Plain(begin: nat, end: nat)
    | Special(begin: nat, end: nat, id: nat)

  /** Ordinary text since `begin` has been passed over, and matching resumes at `cursor`. */
  function Cut(t: Tokenizer, text: string, begin: nat, cursor: nat): seq<Chunk>
    requires begin <= cursor <= |text|
    requires forall k :: 0 <= k < |t.specialTokens| ==> t.specialTokens[k].0 != ""
    decreases |text| - cursor
  {
    if cursor == |text| then
      if begin < cursor then [Plain(begin, cursor)] else []
    else
      match FirstMatch(t, text, cursor, 0)
      case None => Cut(t, text, begin, cursor + 1)
      case Some(k) =>
        var next := cursor + |t.specialTokens[k].0|;
        (if begin < cursor then [Plain(begin, cursor)] else [])
        + ([Special(cursor, next, t.specialTokens[k].1)] + Cut(t, text, next, next))
  }

  /** A plain stretch is not empty, and no special token starts anywhere in it. */
  predicate IsPlain(t: Tokenizer, text: string, begin: nat, end: nat) {
    begin < end <= |text| && forall p :: begin <= p < end ==> FirstMatch(t, text, p, 0).None?
  }

  predicate IsSpecial(t: Tokenizer, text: string, begin: nat, end: nat, id: nat) {
    && begin < end <= |text|
    && var found := FirstMatch(t, text, begin, 0);
       found.Some? && t.specialTokens[found.value] == (text[begin..end], id)
  }

  predicate IsChunk(t: Tokenizer, text: string, chunk: Chunk) {
    match chunk
    case Plain(begin, end) => IsPlain(t, text, begin, end)
    case Special(begin, end, id) => IsSpecial(t, text, begin, end, id)
  }

  /** The chunks lie end to end from `begin` to the end of the text, no two plain ones in a row. */
  predicate Tiles(t: Tokenizer, text: string, chunks: seq<Chunk>, begin: nat) {
    if chunks == [] then begin == |text|
    else
      && chunks[0].begin == begin && IsChunk(t, text, chunks[0])
      && (|chunks| > 1 ==> chunks[0].Special? || chunks[1].Special?)
      && Tiles(t, text, chunks[1..], chunks[0].end)
  }

  lemma {:induction false} CutTiles(t: Tokenizer, text: string, begin: nat, cursor: nat)
    requires Prepared(t) && begin <= cursor <= |text|
    requires forall p :: begin <= p < cursor ==> FirstMatch(t, text, p, 0).None?
    requires forall k :: 0 <= k < |t.specialTokens| ==> t.specialTokens[k].0 != ""
    ensures Tiles(t, text, Cut(t, text, begin, cursor), begin)
    decreases |text| - cursor
  {
    hide FirstMatch, Tiles;
    if begin == cursor == |text| {
      NothingTiles(t, text);
    } else if cursor == |text| {
      LastPlainTiles(t, text, begin);
    } else {
      match FirstMatch(t, text, cursor, 0)
      case None =>
        CutTiles(t, text, begin, cursor + 1);
      case Some(k) =>
        var next := cursor + |t.specialTokens[k].0|;
        CutTiles(t, text, next, next);
        SpecialTiles(t, text, Cut(t, text, next, next), cursor, k);
        PlainTiles(t, text, [Special(cursor, next, t.specialTokens[k].1)] + Cut(t, text, next, next), begin, cursor);
    }
  }

  lemma {:induction false} NothingTiles(t: Tokenizer, text: string)
    ensures Tiles(t, text, [], |text|)
  {}

  lemma {:induction false} LastPlainTiles(t: Tokenizer, text: string, begin: nat)
    requires IsPlain(t, text, begin, |text|)
    ensures Tiles(t, text, [Plain(begin, |text|)], begin)
  {
    assert [Plain(begin, |text|)][1..] == [];
  }

  lemma {:induction false} SpecialTiles(t: Tokenizer, text: string, rest: seq<Chunk>, cursor: nat, k: nat)
    requires FirstMatch(t, text, cursor, 0) == Some(k) && t.specialTokens[k].0 != ""
    requires Tiles(t, text, rest, cursor + |t.specialTokens[k].0|)
    ensures Tiles(t, text, [Special(cursor, cursor + |t.specialTokens[k].0|, t.specialTokens[k].1)] + rest, cursor)
  {
    var (token, id) := t.specialTokens[k];
    var next := cursor + |token|;
    assert text[cursor..next] == token;
    assert IsSpecial(t, text, cursor, next, id);
    assert ([Special(cursor, next, id)] + rest)[1..] == rest;
  }

  lemma {:induction false} PlainTiles(t: Tokenizer, text: string, rest: seq<Chunk>, begin: nat, cursor: nat)
    requires begin < cursor ==> IsPlain(t, text, begin, cursor)
    requires rest != [] && rest[0].Special? && Tiles(t, text, rest, cursor) && begin <= cursor
    ensures Tiles(t, text, (if begin < cursor then [Plain(begin, cursor)] else []) + rest, begin)
  {
    assert [] + rest == rest;
    assert ([Plain(begin, cursor)] + rest)[1..] == rest;
  }

  /** Only one list of chunks tiles the text, so the cut is exactly the one described. */
  lemma {:induction false} TilingIsUnique(t: Tokenizer, text: string, a: seq<Chunk>, b: seq<Chunk>, begin: nat)
    requires Tiles(t, text, a, begin) && Tiles(t, text, b, begin)
    ensures a == b
    decreases |a|
  {
    if a != [] && b != [] {
      SameFirstChunk(t, text, a, b, begin);
      TilingIsUnique(t, text, a[1..], b[1..], a[0].end);
      assert a == [a[0]] + a[1..] && b == [b[0]] + b[1..];
    }
  }

  lemma {:induction false} SameFirstChunk(t: Tokenizer, text: string, a: seq<Chunk>, b: seq<Chunk>, begin: nat)
    requires Tiles(t, text, a, begin) && Tiles(t, text, b, begin) && a != [] && b != []
    ensures a[0] == b[0]
  {
    if a[0].Plain? && b[0].Plain? {
      PlainEndsLast(t, text, a, b[0].end);
      PlainEndsLast(t, text, b, a[0].end);
    }
  }

  lemma {:induction false} PlainEndsLast(t: Tokenizer, text: string, a: seq<Chunk>, end: nat)
    requires a != [] && Tiles(t, text, a, a[0].begin) && a[0].Plain?
    requires IsPlain(t, text, a[0].begin, end)
    ensures end <= a[0].end
  {
    if |a| > 1 {
      assert a[1..][0] == a[1];
    }
  }

  // ---------------------------------------------------------------------------------------------
  // The encoder
  // ---------------------------------------------------------------------------------------------

  predicate UsesBpe(t: Tokenizer) {
    t.model == "gpt2" || t.pre == Some("qwen2") || t.hasMerges
  }

  /** What the ordinary encoder may answer: byte-pair ids, or those of a best segmentation. */
  ghost predicate PlainEncoding(t: Tokenizer, text: string, ids: seq<nat>) {
    if UsesBpe(t) then ids == BpeIds(t, text)
    else if text == "" then ids == []
    else if exists pieces :: Segments(t, pieces, Preprocess(t, text)) then
      exists best :: Optimal(t, best, Preprocess(t, text)) && ids == IdsOf(t, best)
    else ids == GreedyFrom(t, Preprocess(t, text), 0)
  }

  method EncodePlain(t: Tokenizer, text: string) returns (ids: seq<nat>)
    ensures PlainEncoding(t, text, ids)
  {
    if t.model == "gpt2" || t.pre == Some("qwen2") || t.hasMerges {
      ids := EncodeBpe(t, text);
    } else {
      ghost var best;
      ids, best := EncodeSentencePiece(t, text);
    }
  }

  ghost predicate ChunkEncoding(t: Tokenizer, text: string, chunk: Chunk, ids: seq<nat>) {
    match chunk
    case Special(_, _, id) => ids == [id]
    case Plain(begin, end) => begin <= end <= |text| && PlainEncoding(t, text[begin..end], ids)
  }

  function Flatten(parts: seq<seq<nat>>): seq<nat> {
    if parts == [] then [] else Flatten(parts[..|parts| - 1]) + parts[|parts| - 1]
  }

  /** `parts` are the encodings of the first chunks, in order. */
  ghost predicate Encodes(t: Tokenizer, text: string, chunks: seq<Chunk>, parts: seq<seq<nat>>) {
    && |parts| <= |chunks|
    && forall k :: 0 <= k < |parts| ==> ChunkEncoding(t, text, chunks[k], parts[k])
  }

  lemma {:induction false} FlattenPush(parts: seq<seq<nat>>, part: seq<nat>)
    ensures Flatten(parts + [part]) == Flatten(parts) + part
  {
    assert (parts + [part])[..|parts|] == parts;
  }

  /** The loop's progress: `done` has been encoded as `parts`, and the chunks in `rest` are to come. */
  ghost predicate Progress(t: Tokenizer, text: string, all: seq<Chunk>, done: seq<Chunk>, parts: seq<seq<nat>>,
                           ids: seq<nat>, rest: seq<Chunk>) {
    |done| == |parts| && Encodes(t, text, done, parts) && ids == Flatten(parts) && all == done + rest
  }

  lemma {:induction false} Advance(t: Tokenizer, text: string, all: seq<Chunk>, done: seq<Chunk>, parts: seq<seq<nat>>,
                ids: seq<nat>, rest: seq<Chunk>, part: seq<nat>)
    requires rest != [] && ChunkEncoding(t, text, rest[0], part)
    requires Progress(t, text, all, done, parts, ids, rest)
    ensures Progress(t, text, all, done + [rest[0]], parts + [part], ids + part, rest[1..])
  {
    FlattenPush(parts, part);
    assert rest == [rest[0]] + rest[1..];
    Prepend(done, [rest[0]], rest[1..]);
  }

  /** A match ends the stretch of plain text before it. */
  method TakeMatch(t: Tokenizer, text: string, k: nat, normalStart: nat, cursor: nat, before: seq<nat>,
                   ghost all: seq<Chunk>, ghost done: seq<Chunk>, ghost begun: seq<seq<nat>>)
    returns (ids: seq<nat>, ghost chunks: seq<Chunk>, ghost parts: seq<seq<nat>>)
    requires forall j :: 0 <= j < |t.specialTokens| ==> t.specialTokens[j].0 != ""
    requires normalStart <= cursor < |text| && FirstMatch(t, text, cursor, 0) == Some(k)
    requires Progress(t, text, all, done, begun, before, Cut(t, text, normalStart, cursor))
    ensures
      var next := cursor + |t.specialTokens[k].0|;
      Progress(t, text, all, chunks, parts, ids, Cut(t, text, next, next))
  {
    hide PlainEncoding, Flatten, Progress;
    ids, chunks, parts := before, done, begun;
    var id := t.specialTokens[k].1;
    var next := cursor + |t.specialTokens[k].0|;
    ghost var rest := Cut(t, text, next, next);
    ghost var special := [Special(cursor, next, id)] + rest;
    assert special[1..] == rest;
    if normalStart < cursor {
      var plain := EncodePlain(t, text[normalStart..cursor]);
      ghost var both := [Plain(normalStart, cursor)] + special;
      assert both[1..] == special;
      Advance(t, text, all, chunks, parts, ids, both, plain);
      chunks, parts, ids := chunks + [both[0]], parts + [plain], ids + plain;
    } else {
      assert [] + special == special;
    }
    Advance(t, text, all, chunks, parts, ids, special, [id]);
    chunks, parts, ids := chunks + [special[0]], parts + [[id]], ids + [id];
  }

  /** The ids of all chunks of the text, special tokens by id and the rest encoded plainly. */
  ghost predicate IsEncoding(t: Tokenizer, text: string, ids: seq<nat>)
    requires forall k :: 0 <= k < |t.specialTokens| ==> t.specialTokens[k].0 != ""
  {
    exists parts: seq<seq<nat>> ::
      |parts| == |Cut(t, text, 0, 0)| && Encodes(t, text, Cut(t, text, 0, 0), parts) && ids == Flatten(parts)
  }

  lemma {:induction false} NoSpecials(t: Tokenizer, text: string, ids: seq<nat>)
    requires t.specialTokens == [] && PlainEncoding(t, text, ids)
    ensures IsEncoding(t, text, ids)
  {
    NothingToCut(t, text, 0, 0);
    FlattenPush([], ids);
    assert text[0..|text|] == text && [] + [ids] == [ids] && [] + ids == ids;
    var parts := if text == "" then [] else [ids];
    assert Encodes(t, text, Cut(t, text, 0, 0), parts) && ids == Flatten(parts);
  }

  lemma {:induction false} ProgressStarts(t: Tokenizer, text: string)
    requires forall k :: 0 <= k < |t.specialTokens| ==> t.specialTokens[k].0 != ""
    ensures Progress(t, text, Cut(t, text, 0, 0), [], [], [], Cut(t, text, 0, 0))
  {
    hide Cut, ChunkEncoding;
    assert [] + Cut(t, text, 0, 0) == Cut(t, text, 0, 0);
  }

  lemma {:induction false} ProgressEnds(t: Tokenizer, text: string, done: seq<Chunk>, parts: seq<seq<nat>>, ids: seq<nat>)
    requires forall k :: 0 <= k < |t.specialTokens| ==> t.specialTokens[k].0 != ""
    requires Progress(t, text, Cut(t, text, 0, 0), done, parts, ids, [])
    ensures IsEncoding(t, text, ids)
  {
    hide Cut, ChunkEncoding;
    assert done + [] == done;
    assert |parts| == |Cut(t, text, 0, 0)| && Encodes(t, text, Cut(t, text, 0, 0), parts) && ids == Flatten(parts);
  }

  /** What is left after the last special token. */
  method TakeRest(t: Tokenizer, text: string, normalStart: nat, before: seq<nat>, ghost done: seq<Chunk>, ghost begun: seq<seq<nat>>)
    returns (ids: seq<nat>)
    requires forall k :: 0 <= k < |t.specialTokens| ==> t.specialTokens[k].0 != ""
    requires normalStart <= |text|
    requires Progress(t, text, Cut(t, text, 0, 0), done, begun, before, Cut(t, text, normalStart, |text|))
    ensures IsEncoding(t, text, ids)
  {
    hide Progress, PlainEncoding, IsEncoding;
    ids := before;
    ghost var rest := Cut(t, text, normalStart, |text|);
    if normalStart < |text| {
      var plain := EncodePlain(t, text[normalStart..]);
      assert text[normalStart..] == text[normalStart..|text|];
      assert rest == [Plain(normalStart, |text|)] && rest[1..] == [];
      Advance(t, text, Cut(t, text, 0, 0), done, begun, before, rest, plain);
      ids := ids + plain;
      ProgressEnds(t, text, done + [rest[0]], begun + [plain], ids);
    } else {
      assert rest == [];
      ProgressEnds(t, text, done, begun, ids);
    }
  }

  /** Cuts the text at its special tokens and encodes what lies between them. */
  method EncodeWithSpecialTokens(t: Tokenizer, text: string) returns (ids: seq<nat>)
    requires forall k :: 0 <= k < |t.specialTokens| ==> t.specialTokens[k].0 != ""
    ensures IsEncoding(t, text, ids)
  {
    hide FirstMatch, PlainEncoding, Progress, IsEncoding, Cut;
    if t.specialTokens == [] {
      ids := EncodePlain(t, text);
      NoSpecials(t, text, ids);
      return;
    }
    ghost var chunks: seq<Chunk>, parts: seq<seq<nat>>;
    ids, chunks, parts := [], [], [];
    ghost var all := Cut(t, text, 0, 0);
    ProgressStarts(t, text);
    var normalStart, cursor: nat := 0, 0;
    while cursor < |text|
      invariant 0 <= normalStart <= cursor <= |text|
      invariant Progress(t, text, all, chunks, parts, ids, Cut(t, text, normalStart, cursor))
      decreases |text| - cursor
    {
      var matched := FirstMatch(t, text, cursor, 0);
      match matched {
        case Some(k) =>
          var next := cursor + |t.specialTokens[k].0|;
          ids, chunks, parts := TakeMatch(t, text, k, normalStart, cursor, ids, all, chunks, parts);
          normalStart, cursor := next, next;
        case None =>
          CutPasses(t, text, normalStart, cursor);
          cursor := cursor + 1;
      }
    }
    ids := TakeRest(t, text, normalStart, ids, chunks, parts);
  }

  lemma {:induction false} CutPasses(t: Tokenizer, text: string, begin: nat, cursor: nat)
    requires begin <= cursor < |text| && FirstMatch(t, text, cursor, 0).None?
    requires forall k :: 0 <= k < |t.specialTokens| ==> t.specialTokens[k].0 != ""
    ensures Cut(t, text, begin, cursor) == Cut(t, text, begin, cursor + 1)
  {}

  lemma {:induction false} NothingToCut(t: Tokenizer, text: string, begin: nat, cursor: nat)
    requires t.specialTokens == [] && begin <= cursor <= |text|
    ensures Cut(t, text, begin, cursor) == if begin < |text| then [Plain(begin, |text|)] else []
    decreases |text| - cursor
  {
    if cursor < |text| {
      NothingToCut(t, text, begin, cursor + 1);
    }
  }

  /** `Tokenizer::encode`: BOS in front and EOS behind, when configured. */
  method Encode(t: Tokenizer, text: string, addBos: bool) returns (ids: seq<nat>)
    requires forall k :: 0 <= k < |t.specialTokens| ==> t.specialTokens[k].0 != ""
    ensures exists inner :: IsEncoding(t, text, inner) &&
              ids == (if addBos && t.addBos && t.bosId.Some? then [t.bosId.value] else [])
                     + inner + (if t.addEos && t.eosId.Some? then [t.eosId.value] else [])
  {
    hide IsEncoding;
    ids := [];
    if addBos && t.addBos {
      if t.bosId.Some? {
        ids := ids + [t.bosId.value];
      }
    }
    var encoded := EncodeWithSpecialTokens(t, text);
    ids := ids + encoded;
    if t.addEos {
      if t.eosId.Some? {
        ids := ids + [t.eosId.value];
      }
    }
  }

  // ---------------------------------------------------------------------------------------------
  // Nothing is lost between the chunks
  // ---------------------------------------------------------------------------------------------

  /** The ordinary encoder kept every plain stretch. */
  predicate PlainKept(t: Tokenizer, text: string, chunks: seq<Chunk>, parts: seq<seq<nat>>) {
    && |chunks| == |parts|
    && forall k :: 0 <= k < |chunks| && chunks[k].Plain? ==>
      chunks[k].begin <= chunks[k].end <= |text| && Spelled(t, parts[k]) == text[chunks[k].begin..chunks[k].end]
  }

  lemma {:induction false} FlattenFront(part: seq<nat>, parts: seq<seq<nat>>)
    ensures Flatten([part] + parts) == part + Flatten(parts)
  {
    var n := |parts|;
    if n == 0 {
      FlattenPush([], part);
      assert [part] + parts == [] + [part];
    } else {
      FlattenFront(part, parts[..n - 1]);
      assert [part] + parts == ([part] + parts[..n - 1]) + [parts[n - 1]];
      FlattenPush([part] + parts[..n - 1], parts[n - 1]);
      Prepend(part, Flatten(parts[..n - 1]), parts[n - 1]);
    }
  }

  lemma {:induction false} SpecialSpelled(t: Tokenizer, text: string, begin: nat, end: nat, id: nat)
    requires Prepared(t) && IsSpecial(t, text, begin, end, id)
    ensures Spelled(t, [id]) == text[begin..end]
  {
    SpelledOne(t, id);
  }

  /** The parts spell the chunks, and the chunks lie end to end. */
  predicate PartsSpell(t: Tokenizer, text: string, chunks: seq<Chunk>, parts: seq<seq<nat>>, begin: nat) {
    if chunks == [] || parts == [] then chunks == [] && parts == [] && begin == |text|
    else
      && chunks[0].begin == begin <= chunks[0].end <= |text|
      && Spelled(t, parts[0]) == text[begin..chunks[0].end]
      && PartsSpell(t, text, chunks[1..], parts[1..], chunks[0].end)
  }

  lemma {:induction false} SpelledInOrder(t: Tokenizer, text: string, chunks: seq<Chunk>, parts: seq<seq<nat>>, begin: nat)
    requires PartsSpell(t, text, chunks, parts, begin) && begin <= |text|
    ensures Spelled(t, Flatten(parts)) == text[begin..]
    decreases |chunks|
  {
    if chunks != [] {
      var end := chunks[0].end;
      SpelledInOrder(t, text, chunks[1..], parts[1..], end);
      assert [parts[0]] + parts[1..] == parts;
      FlattenFront(parts[0], parts[1..]);
      SpelledAppend(t, parts[0], Flatten(parts[1..]));
      assert text[begin..] == text[begin..end] + text[end..];
    }
  }

  /** Where every plain stretch survives, the whole text does: the chunks lose and repeat nothing. */
  lemma {:induction false} EncodingKeepsText(t: Tokenizer, text: string, chunks: seq<Chunk>, parts: seq<seq<nat>>, begin: nat)
    requires Prepared(t) && begin <= |text| && Tiles(t, text, chunks, begin)
    requires |chunks| == |parts| && Encodes(t, text, chunks, parts) && PlainKept(t, text, chunks, parts)
    ensures PartsSpell(t, text, chunks, parts, begin)
    ensures Spelled(t, Flatten(parts)) == text[begin..]
    decreases |chunks|
  {
    if chunks != [] {
      assert ChunkEncoding(t, text, chunks[0], parts[0]);
      if chunks[0].Special? {
        SpecialSpelled(t, text, begin, chunks[0].end, chunks[0].id);
      }
      EncodingKeepsText(t, text, chunks[1..], parts[1..], chunks[0].end);
    }
    SpelledInOrder(t, text, chunks, parts, begin);
  }
}
