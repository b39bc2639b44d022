/**
 * Decoding what was encoded: which tokens are shown as their own characters, and which texts come
 * back from the byte-pair encoder.
 */
module RoundTrips {
  import opened Prelude
  import opened Utf8
  import opened LossyItems
  import opened Vocabulary
  import opened TokenDecoding
  import opened SentencePiece
  import opened Bpe

  // ---------------------------------------------------------------------------------------------
  // Tokens that are shown as they are
  // ---------------------------------------------------------------------------------------------

  /** Printing ASCII and the marker for a space: the part of GPT-2's alphabet that decodes to itself. */
  predicate ShowsItself(c: char) {
    '!' <= c <= '~' || c == '\U{0120}'
  }

  /**
   * An id whose token is decoded to the token's own characters, markers as spaces: it is not passed
   * over, does not read as a byte token, and if it is taken for GPT-2's alphabet it is ASCII.
   */
  ghost predicate PrintsItself(t: Tokenizer, id: nat) {
    id < |t.tokens| && t.tokens[id] != "" ==>
      && !Skipped(t, id) && !WritesSomeByte(t.tokens[id])
      && (t.model in {"gpt2", "qwen2"} && SpellsBytes(t.tokens[id]) ==>
        forall i :: 0 <= i < |t.tokens[id]| ==> ShowsItself(t.tokens[id][i]))
  }

  ghost predicate AllPrint(t: Tokenizer, ids: seq<nat>) {
    forall i :: 0 <= i < |ids| ==> PrintsItself(t, ids[i])
  }

  /** What a byte of GPT-2's alphabet shows, by itself, is its letter in just these cases. */
  lemma {:induction false} LetterShows(b: byte)
    ensures ShowsItself(ByteToUnicode(b)) ==> b < 0x80 && Normalize([ByteToUnicode(b)]) == [b as char]
    ensures !ShowsItself(ByteToUnicode(b)) ==> [ShownItem(Lone(b))] != Normalize([ByteToUnicode(b)])
  {
    UnprintableRanges(b);
    NormalizeAt([ByteToUnicode(b)], 0);
  }

  /** A spelling made of such letters is the spelling of its own characters. */
  lemma {:induction false} ShownSpelling(bytes: seq<byte>)
    requires forall i :: 0 <= i < |Gpt2Spelling(bytes)| ==> ShowsItself(Gpt2Spelling(bytes)[i])
    ensures EncodeAll(Normalize(Gpt2Spelling(bytes))) == bytes
  {
    if bytes != [] {
      hide ShowsItself, ByteToUnicode, Encode;
      var token := Gpt2Spelling(bytes);
      assert token[1..] == Gpt2Spelling(bytes[1..]);
      forall i | 0 <= i < |Gpt2Spelling(bytes[1..])| ensures ShowsItself(Gpt2Spelling(bytes[1..])[i]) {
        assert token[1..][i] == token[i + 1];
      }
      ShownSpelling(bytes[1..]);
      LetterShows(bytes[0]);
      assert token == [token[0]] + token[1..];
      NormalizeAppend([token[0]], token[1..]);
      assert Normalize(token)[0] == bytes[0] as char && Normalize(token)[1..] == Normalize(token[1..]);
      AsciiEncodes(bytes[0]);
    }
  }

  lemma {:induction false} AsciiEncodes(b: byte)
    ensures b < 0x80 ==> Encode(b as char) == [b]
  {}

  /** A spelling with any other letter is shown differently. */
  lemma {:induction false} HiddenSpelling(bytes: seq<byte>, i: nat)
    requires i < |Gpt2Spelling(bytes)| && !ShowsItself(Gpt2Spelling(bytes)[i])
    ensures |Gpt2Spelling(bytes)| == |bytes| && Shown(Lones(bytes)) != Normalize(Gpt2Spelling(bytes))
  {
    hide ShowsItself, ByteToUnicode, ShownItem;
    SpellingLength(bytes);
    SpellingAt(bytes, i);
    LetterShows(bytes[i]);
    var token := Gpt2Spelling(bytes);
    NormalizeAt(token, i);
    NormalizeAt([token[i]], 0);
    assert Shown(Lones(bytes))[i] == ShownItem(Lone(bytes[i]));
    assert Normalize([token[i]]) == [Normalize(token)[i]];
  }

  /** The bytes an id contributes, as items: as many as characters and the same exactly when it prints itself. */
  lemma {:induction false} PieceItems(t: Tokenizer, id: nat) returns (items: seq<Item>)
    requires PieceOf(t, id).Bytes?
    ensures id < |t.tokens| && ItemBytes(items) == PieceOf(t, id).bytes && |items| <= |t.tokens[id]|
    ensures Shown(items) == Normalize(t.tokens[id]) <==> PrintsItself(t, id)
    ensures PrintsItself(t, id) ==> items == Wholes(Normalize(t.tokens[id]))
  {
    hide PieceOf, WritesByte, Gpt2Spelling, ShowsItself, ItemBytes, EncodeAll, Normalize;
    PieceOfExactly(t, id);
    var token := t.tokens[id];
    if WritesSomeByte(token) {
      items := ByteTokenItem(t, id);
    } else if IsByteCharacter(t, id) {
      items := Wholes(Normalize(token));
      ByteCharacterPrints(t, id);
      BytesOfWholes(Normalize(token));
    } else {
      var bytes :| token == Gpt2Spelling(bytes) && PieceOf(t, id) == Bytes(bytes);
      if forall i :: 0 <= i < |token| ==> ShowsItself(token[i]) {
        items := Wholes(Normalize(token));
        ShownSpelling(bytes);
        BytesOfWholes(Normalize(token));
      } else {
        var i :| 0 <= i < |token| && !ShowsItself(token[i]);
        items := Lones(bytes);
        BytesOfLones(bytes);
        HiddenSpelling(bytes, i);
        assert token != "" && SpellsBytes(token);
      }
    }
  }

  lemma {:induction false} ByteTokenItem(t: Tokenizer, id: nat) returns (items: seq<Item>)
    requires !Skipped(t, id) && WritesSomeByte(t.tokens[id])
    ensures ItemBytes(items) == (match PieceOf(t, id) case Bytes(bytes) => bytes case _ => []) && PieceOf(t, id).Bytes?
    ensures |items| < |t.tokens[id]| && !PrintsItself(t, id)
  {
    hide PieceOf;
    PieceOfExactly(t, id);
    var b: byte :| WritesByte(t.tokens[id], b);
    items := [Lone(b)];
    assert items[1..] == [] && [b] + [] == [b];
  }

  lemma {:induction false} ByteCharacterPrints(t: Tokenizer, id: nat)
    requires id < |t.tokens| && IsByteCharacter(t, id) && !Skipped(t, id) && !WritesSomeByte(t.tokens[id])
    ensures PrintsItself(t, id) && EncodeAll(Normalize(t.tokens[id])) == [t.tokens[id][0] as int]
  {
    hide WritesByte;
    var token := t.tokens[id];
    NormalizeAt(token, 0);
    assert Normalize(token) == token;
    EncodedInOneByte(token);
    if SpellsBytes(token) {
      var bytes :| token == Gpt2Spelling(bytes);
      SpellingAt(bytes, 0);
      UnprintableRanges(bytes[0]);
    }
  }

  // ---------------------------------------------------------------------------------------------
  // Decoding shows what is spelled
  // ---------------------------------------------------------------------------------------------

  /** How far `batch` is what the items of `run` and then `shown` would show: just that, or shorter. */
  predicate ShowsAtMost(batch: string, run: seq<Item>, shown: string) {
    |batch| < |run| + |shown| || batch == Shown(run) + shown
  }

  /**
   * What pending bytes and then ids are decoded to: what their items show one by one or something
   * shorter, and that equals the spelling only when every id prints itself.
   */
  lemma {:induction false} PrintedBatch(t: Tokenizer, ids: seq<nat>, run: seq<Item>) returns (shown: string)
    ensures |shown| <= |Spelled(t, ids)|
    ensures shown == Normalize(Spelled(t, ids)) <==> AllPrint(t, ids)
    ensures ShowsAtMost(Batch(Pieces(t, ids), ItemBytes(run)), run, shown)
    ensures forall r :: AllPrint(t, ids) && run == Wholes(r) ==>
      Batch(Pieces(t, ids), ItemBytes(run)) == r + Normalize(Spelled(t, ids))
    decreases |ids|
  {
    hide PieceOf, PrintsItself, Lossy, ItemBytes;
    if ids == [] {
      shown := "";
      LossyOfItems(run);
      forall r | run == Wholes(r) ensures Batch(Pieces(t, ids), ItemBytes(run)) == r + "" {
        BytesOfWholes(r);
        LossyOfEncoding(r);
      }
    } else {
      AllPrintFirst(t, ids);
      NormalizeAppend(TokenOf(t, ids[0]), Spelled(t, ids[1..]));
      assert Pieces(t, ids)[1..] == Pieces(t, ids[1..]);
      match PieceOf(t, ids[0])
      case Silent =>
        shown := PrintedBatch(t, ids[1..], run);
        SilentShows(t, ids[0]);
      case Bytes(bytes) =>
        var items := PieceItems(t, ids[0]);
        var rest := PrintedBatch(t, ids[1..], run + items);
        shown := Shown(items) + rest;
        ItemBytesAppend(run, items);
        RunGrows(t, ids, run, items, rest);
      case Text(text) =>
        TextShows(t, ids[0]);
        var rest := PrintedBatch(t, ids[1..], []);
        shown := text + rest;
        RunEnds(t, ids, run, text, rest);
    }
  }

  function TokenOf(t: Tokenizer, id: nat): string {
    if id < |t.tokens| then t.tokens[id] else ""
  }

  lemma {:induction false} SilentShows(t: Tokenizer, id: nat)
    requires PieceOf(t, id).Silent?
    ensures PrintsItself(t, id) <==> TokenOf(t, id) == ""
  {
    PieceOfExactly(t, id);
  }

  lemma {:induction false} TextShows(t: Tokenizer, id: nat)
    requires PieceOf(t, id).Text?
    ensures PrintsItself(t, id) && PieceOf(t, id) == Text(Normalize(TokenOf(t, id)))
  {
    hide PieceOf, WritesByte, Gpt2Spelling, ShowsItself;
    PieceOfExactly(t, id);
  }

  /** Two parts that are no longer than two others join to the same only part by part. */
  lemma {:induction false} EqualParts(a: string, b: string, x: string, y: string)
    requires |a| <= |x| && |b| <= |y|
    ensures a + b == x + y <==> a == x && b == y
  {
    if a + b == x + y {
      assert |a + b| == |x + y|;
      assert (a + b)[..|a|] == a && (x + y)[..|a|] == x;
      assert (a + b)[|a|..] == b && (x + y)[|a|..] == y;
    }
  }

  lemma {:induction false} RunGrows(t: Tokenizer, ids: seq<nat>, run: seq<Item>, items: seq<Item>, rest: string)
    requires ids != [] && PieceOf(t, ids[0]).Bytes? && |items| <= |TokenOf(t, ids[0])| && |rest| <= |Spelled(t, ids[1..])|
    requires ItemBytes(run + items) == ItemBytes(run) + PieceOf(t, ids[0]).bytes
    requires Pieces(t, ids)[1..] == Pieces(t, ids[1..])
    requires PrintsItself(t, ids[0]) ==> items == Wholes(Normalize(TokenOf(t, ids[0])))
    requires ShowsAtMost(Batch(Pieces(t, ids[1..]), ItemBytes(run + items)), run + items, rest)
    requires forall r :: AllPrint(t, ids[1..]) && run + items == Wholes(r) ==>
      Batch(Pieces(t, ids[1..]), ItemBytes(run + items)) == r + Normalize(Spelled(t, ids[1..]))
    requires Normalize(Spelled(t, ids)) == Normalize(TokenOf(t, ids[0])) + Normalize(Spelled(t, ids[1..]))
    ensures ShowsAtMost(Batch(Pieces(t, ids), ItemBytes(run)), run, Shown(items) + rest)
    ensures forall r :: AllPrint(t, ids) && run == Wholes(r) ==>
      Batch(Pieces(t, ids), ItemBytes(run)) == r + Normalize(Spelled(t, ids))
    ensures Shown(items) + rest == Normalize(Spelled(t, ids))
      <==> Shown(items) == Normalize(TokenOf(t, ids[0])) && rest == Normalize(Spelled(t, ids[1..]))
  {
    hide PieceOf, PrintsItself, ItemBytes, Spelled, Normalize;
    var batch := Batch(Pieces(t, ids), ItemBytes(run));
    assert batch == Batch(Pieces(t, ids[1..]), ItemBytes(run + items));
    EqualParts(Shown(items), rest, Normalize(TokenOf(t, ids[0])), Normalize(Spelled(t, ids[1..])));
    ShownAppend(run, items);
    Prepend(Shown(run), Shown(items), rest);
    AllPrintFirst(t, ids);
    forall r | AllPrint(t, ids) && run == Wholes(r) ensures batch == r + Normalize(Spelled(t, ids)) {
      var token := Normalize(TokenOf(t, ids[0]));
      assert run + items == Wholes(r + token);
      Prepend(r, token, Normalize(Spelled(t, ids[1..])));
    }
  }

  lemma {:induction false} RunEnds(t: Tokenizer, ids: seq<nat>, run: seq<Item>, text: string, rest: string)
    requires ids != [] && PieceOf(t, ids[0]) == Text(text) && text == Normalize(TokenOf(t, ids[0]))
    requires Pieces(t, ids)[1..] == Pieces(t, ids[1..]) && |rest| <= |Spelled(t, ids[1..])|
    requires ShowsAtMost(Batch(Pieces(t, ids[1..]), ItemBytes([])), [], rest)
    requires forall r :: AllPrint(t, ids[1..]) && [] == Wholes(r) ==>
      Batch(Pieces(t, ids[1..]), ItemBytes([])) == r + Normalize(Spelled(t, ids[1..]))
    requires Normalize(Spelled(t, ids)) == text + Normalize(Spelled(t, ids[1..]))
    ensures ShowsAtMost(Batch(Pieces(t, ids), ItemBytes(run)), run, text + rest)
    ensures forall r :: AllPrint(t, ids) && run == Wholes(r) ==>
      Batch(Pieces(t, ids), ItemBytes(run)) == r + Normalize(Spelled(t, ids))
    ensures text + rest == Normalize(Spelled(t, ids)) <==> rest == Normalize(Spelled(t, ids[1..]))
  {
    hide PieceOf, PrintsItself, Spelled, Normalize, Lossy;
    var batch, tail := Batch(Pieces(t, ids), ItemBytes(run)), Batch(Pieces(t, ids[1..]), []);
    assert batch == Lossy(ItemBytes(run)) + text + tail;
    LossyOfItems(run);
    EqualParts(text, rest, text, Normalize(Spelled(t, ids[1..])));
    assert Shown([]) == "" && "" + rest == rest;
    Prepend(Lossy(ItemBytes(run)), text, tail);
    Prepend(Shown(run), text, rest);
    AllPrintFirst(t, ids);
    forall r | AllPrint(t, ids) && run == Wholes(r) ensures batch == r + Normalize(Spelled(t, ids)) {
      BytesOfWholes(r);
      LossyOfEncoding(r);
      assert [] == Wholes("");
      Prepend(r, text, Normalize(Spelled(t, ids[1..])));
    }
  }

  lemma {:induction false} AllPrintFirst(t: Tokenizer, ids: seq<nat>)
    requires ids != []
    ensures AllPrint(t, ids) <==> PrintsItself(t, ids[0]) && AllPrint(t, ids[1..])
  {
    hide PrintsItself;
    assert ids == [ids[0]] + ids[1..];
  }

  /**
   * Decoding shows exactly what the tokens spell, markers as spaces, when every id prints itself,
   * and, where nothing is trimmed, only then.
   */
  lemma {:induction false} DecodingSpells(t: Tokenizer, ids: seq<nat>)
    ensures AllPrint(t, ids) ==>
      Decoded(t, ids) == if t.model == "llama" then TrimStart(Normalize(Spelled(t, ids))) else Normalize(Spelled(t, ids))
    ensures t.model != "llama" ==> (Decoded(t, ids) == Normalize(Spelled(t, ids)) <==> AllPrint(t, ids))
  {
    hide PrintsItself, Spelled, Normalize, PieceOf, Batch;
    var shown := PrintedBatch(t, ids, []);
    assert ItemBytes([]) == [] && [] == Wholes("") && Shown([]) == "";
    assert "" + shown == shown && "" + Normalize(Spelled(t, ids)) == Normalize(Spelled(t, ids));
  }

  // ---------------------------------------------------------------------------------------------
  // Texts that come back
  // ---------------------------------------------------------------------------------------------

  lemma {:induction false} SingleSpacedHasWord(text: string)
    requires SingleSpaced(text)
    ensures text == "" || !WhitespaceOnly(text)
  {
    hide IsWhitespace;
    assert text != "" ==> !IsWhitespace(text[|text| - 1]);
  }

  /**
   * A text without marker characters, and single-spaced where the vocabulary has a space marker, comes
   * back from byte-pair encoding when the ids print themselves, and, where nothing is trimmed, only then.
   */
  lemma {:induction false} BpeTextComesBack(t: Tokenizer, text: string)
    requires ProductsInVocabulary(t) && Indexes(t.tokenToId, t.tokens, |t.tokens|)
    requires forall w :: 0 <= w < |WordsOf(t, text)| ==> InVocabulary(t, Characters(WordsOf(t, text)[w]))
    requires NoMarks(text) && (HasGDot(t) ==> SingleSpaced(text))
    ensures AllPrint(t, BpeIds(t, text)) ==>
      Decoded(t, BpeIds(t, text)) == if t.model == "llama" then TrimStart(text) else text
    ensures t.model != "llama" ==> (Decoded(t, BpeIds(t, text)) == text <==> AllPrint(t, BpeIds(t, text)))
  {
    hide WordsOf, BpeIds, AllPrint, Decoded, Normalize, IsWhitespace;
    if HasGDot(t) {
      SingleSpacedHasWord(text);
    }
    EncodingKeepsWords(t, text);
    PreTokenizingExactly(t, text);
    DecodingSpells(t, BpeIds(t, text));
  }

  /** Of the texts with a word, when the ids print themselves, no others come back. */
  lemma {:induction false} BpeTextsThatComeBack(t: Tokenizer, text: string)
    requires ProductsInVocabulary(t) && Indexes(t.tokenToId, t.tokens, |t.tokens|)
    requires forall w :: 0 <= w < |WordsOf(t, text)| ==> InVocabulary(t, Characters(WordsOf(t, text)[w]))
    requires t.model != "llama" && AllPrint(t, BpeIds(t, text)) && !WhitespaceOnly(text)
    ensures Decoded(t, BpeIds(t, text)) == text <==> NoMarks(text) && (HasGDot(t) ==> SingleSpaced(text))
  {
    hide WordsOf, BpeIds, AllPrint, Decoded, Normalize;
    EncodingKeepsWords(t, text);
    PreTokenizingExactly(t, text);
    DecodingSpells(t, BpeIds(t, text));
  }

  /** The byte-pair encoder and the decoder, one after the other. */
  method BpeRoundTrip(t: Tokenizer, text: string) returns (ids: seq<nat>, again: string)
    requires ProductsInVocabulary(t) && Indexes(t.tokenToId, t.tokens, |t.tokens|)
    requires forall w :: 0 <= w < |WordsOf(t, text)| ==> InVocabulary(t, Characters(WordsOf(t, text)[w]))
    requires NoMarks(text) && (HasGDot(t) ==> SingleSpaced(text))
    ensures AllPrint(t, ids) ==> again == if t.model == "llama" then TrimStart(text) else text
    ensures t.model != "llama" ==> (again == text <==> AllPrint(t, ids))
  {
    hide *;
    ids := EncodeBpe(t, text);
    again := Decode(t, ids);
    BpeTextComesBack(t, text);
  }

  lemma {:induction false} SegmentsSpell(t: Tokenizer, pieces: seq<string>)
    requires AllUsable(t, pieces) && Indexes(t.tokenToId, t.tokens, |t.tokens|)
    ensures Spelled(t, IdsOf(t, pieces)) == Concat(pieces)
  {
    if pieces != [] {
      assert IdsOf(t, pieces)[1..] == IdsOf(t, pieces[1..]);
      SegmentsSpell(t, pieces[1..]);
      ConcatFront(pieces);
    }
  }

  /**
   * SentencePiece encoding, in any vocabulary: a text without marker characters comes back when the
   * ids print themselves, but for the space the marker puts in front, which only llama trims.
   */
  lemma {:induction false} SegmentedTextComesBack(t: Tokenizer, text: string, pieces: seq<string>)
    requires Indexes(t.tokenToId, t.tokens, |t.tokens|) && NoMarks(text) && Segments(t, pieces, Preprocess(t, text))
    ensures
      var fronted := (if HasMark(t) && text != "" && text[0] != ' ' then " " else "") + text;
      && (AllPrint(t, IdsOf(t, pieces)) ==> Decoded(t, IdsOf(t, pieces)) == if t.model == "llama" then TrimStart(text) else fronted)
      && (t.model != "llama" ==> (Decoded(t, IdsOf(t, pieces)) == fronted <==> AllPrint(t, IdsOf(t, pieces))))
  {
    hide AllPrint, Decoded, Normalize, NoMarks;
    SegmentsSpell(t, pieces);
    DecodingSpells(t, IdsOf(t, pieces));
    NormalizeUnmarked(text);
    assert (" " + text)[1..] == text && "" + text == text;
    assert TrimStart(" " + text) == TrimStart(text);
    if HasMark(t) {
      NormalizePreprocessed(t, text);
    }
  }

  /**
   * GPT-2 vocabularies are decoded through the byte alphabet but not encoded through it: a character
   * of the alphabet above ASCII, kept as it is by the encoder, comes back as a lone byte.
   */
  lemma {:induction false} AccentIsLost(t: Tokenizer)
    requires t.model == "gpt2" && t.tokens == ["\U{E9}"] && t.tokenTypes == [Normal]
    requires Indexes(t.tokenToId, t.tokens, 1) && t.mergesRank == map[]
    ensures BpeIds(t, "\U{E9}") == [0] && Decoded(t, [0]) != "\U{E9}"
  {
    var text := "\U{E9}";
    assert t.tokens[0] in t.tokenToId;
    assert !HasGDot(t) by {
      assert t.tokens[0][0] != G_DOT;
    }
    assert WordsOf(t, text) == [text];
    assert Characters(text) == [text];
    assert BpeIds(t, text) == [0] by {
      NoRanksNoPairs(t.mergesRank, [text], 1);
      assert PiecesIds(t, [text], 0) == [] && PiecesIds(t, [text], 1) == [0];
      assert WordsIds(t, [text], 0) == [] && WordsIds(t, [text], 1) == [0];
    }
    assert NoMarks(text);
    BpeTextComesBack(t, text);
    assert Gpt2Spelling([0xE9]) == text by {
      UnprintableRanges(0xE9);
    }
    assert SpellsBytes(text);
    assert !ShowsItself(text[0]);
  }

  // ---------------------------------------------------------------------------------------------
  // Pieces outside the vocabulary, spelled byte by byte
  // ---------------------------------------------------------------------------------------------

  /** In front of any others the ids show `shown`, and leave nothing pending. */
  ghost predicate Shows(t: Tokenizer, ids: seq<nat>, shown: string) {
    forall rest: seq<Piece> :: Batch(Pieces(t, ids) + rest, []) == shown + Batch(rest, [])
  }

  lemma {:induction false} DrainOfEncoding(text: string)
    ensures Drain(EncodeAll(text)) == Drained(text, [])
  {
    hide Encode, Scan, CodePoint;
    if text != "" {
      ScanOfEncoding(text[0], EncodeAll(text[1..]));
      assert EncodeAll(text)[|Encode(text[0])|..] == EncodeAll(text[1..]);
      DrainOfEncoding(text[1..]);
    }
  }

  /** Bytes that are a text's encoding might as well have been decoded before the next piece. */
  lemma {:induction false} BatchAfterText(text: string, pieces: seq<Piece>)
    ensures Batch(pieces, EncodeAll(text)) == text + Batch(pieces, [])
  {
    DrainOfEncoding(text);
    EarlyDrain(pieces, EncodeAll(text));
  }

  lemma {:induction false} ShowsNothing(t: Tokenizer)
    ensures Shows(t, [], "")
  {
    forall rest: seq<Piece> ensures Batch(Pieces(t, []) + rest, []) == "" + Batch(rest, []) {
      assert Pieces(t, []) + rest == rest;
    }
  }

  lemma {:induction false} ShowsBoth(t: Tokenizer, a: seq<nat>, x: string, b: seq<nat>, y: string)
    requires Shows(t, a, x) && Shows(t, b, y)
    ensures Shows(t, a + b, x + y)
  {
    hide PieceOf, Batch, Pieces;
    PiecesAppend(t, a, b);
    forall rest: seq<Piece> ensures Batch(Pieces(t, a + b) + rest, []) == x + y + Batch(rest, []) {
      Prepend(Pieces(t, a), Pieces(t, b), rest);
      assert Batch(Pieces(t, a) + (Pieces(t, b) + rest), []) == x + Batch(Pieces(t, b) + rest, []);
      Prepend(x, y, Batch(rest, []));
    }
  }

  /** An id that prints itself shows its token. */
  lemma {:induction false} PrintingShows(t: Tokenizer, id: nat)
    requires PrintsItself(t, id)
    ensures Shows(t, [id], Normalize(TokenOf(t, id)))
  {
    hide PieceOf, PrintsItself, Normalize, Lossy;
    var shown := Normalize(TokenOf(t, id));
    assert Pieces(t, [id]) == [PieceOf(t, id)];
    forall rest: seq<Piece> ensures Batch(Pieces(t, [id]) + rest, []) == shown + Batch(rest, []) {
      var all := [PieceOf(t, id)] + rest;
      assert all[1..] == rest;
      match PieceOf(t, id)
      case Silent =>
        SilentShows(t, id);
        assert Normalize("") == "" by {
          EmptyIsNormal();
        }
      case Bytes(bytes) =>
        var items := PieceItems(t, id);
        BytesOfWholes(shown);
        assert [] + bytes == EncodeAll(shown);
        BatchAfterText(shown, rest);
      case Text(text) =>
        TextShows(t, id);
        assert Lossy([]) == "" by {
          NothingIsLossy();
        }
        assert "" + text == text;
    }
  }

  lemma {:induction false} EmptyIsNormal()
    ensures Normalize("") == ""
  {}

  lemma {:induction false} NothingIsLossy()
    ensures Lossy([]) == ""
  {}

  /** The table is the one built from the tokens, and every byte has a token that is decoded. */
  ghost predicate CoversBytes(t: Tokenizer) {
    && IndexesBytes(t.byteTokens, t.tokens, t.tokenTypes, t.tokenToId, |t.tokens|)
    && forall b: byte :: b in t.byteTokens && !Skipped(t, t.byteTokens[b])
  }

  /** The token a byte has in the table is decoded to that byte. */
  lemma {:induction false} ByteTokenPiece(t: Tokenizer, b: byte)
    requires CoversBytes(t) && Indexes(t.tokenToId, t.tokens, |t.tokens|)
    ensures PieceOf(t, t.byteTokens[b]) == Bytes([b])
  {
    hide PieceOf, WritesByte;
    var id := t.byteTokens[b];
    PieceOfExactly(t, id);
    assert IndexesByte(t.byteTokens, t.tokens, t.tokenTypes, t.tokenToId, |t.tokens|, b);
    if !SomeWrites(t.tokens, |t.tokens|, b) {
      assert t.tokens[id] == [b as char];
      if WritesSomeByte(t.tokens[id]) {
        var other: byte :| WritesByte(t.tokens[id], other);
        WritersAreLong(t.tokens[id], other);
      }
    }
  }

  lemma {:induction false} WritersAreLong(token: string, b: byte)
    requires WritesByte(token, b)
    ensures |token| == 6
  {}

  /** A character sequence outside the vocabulary, byte by byte, shows itself. */
  lemma {:induction false} FallbackShows(t: Tokenizer, piece: string)
    requires CoversBytes(t) && Indexes(t.tokenToId, t.tokens, |t.tokens|)
    ensures Shows(t, ByteIds(t, EncodeAll(piece), |EncodeAll(piece)|), piece)
  {
    hide PieceOf, CoversBytes;
    var bytes := EncodeAll(piece);
    var ids := ByteIds(t, bytes, |bytes|);
    forall rest: seq<Piece> ensures Batch(Pieces(t, ids) + rest, []) == piece + Batch(rest, []) {
      ByteIdsGather(t, bytes, |bytes|, rest);
      assert bytes[..|bytes|] == bytes;
      BatchAfterText(piece, rest);
    }
  }

  lemma {:induction false} ByteIdsGather(t: Tokenizer, bytes: seq<byte>, n: nat, rest: seq<Piece>)
    requires CoversBytes(t) && Indexes(t.tokenToId, t.tokens, |t.tokens|) && n <= |bytes|
    ensures Batch(Pieces(t, ByteIds(t, bytes, n)) + rest, []) == Batch(rest, bytes[..n])
    decreases n
  {
    hide PieceOf;
    if n == 0 {
      assert Pieces(t, []) + rest == rest;
    } else {
      var b := bytes[n - 1];
      ByteTokenPiece(t, b);
      var before := ByteIds(t, bytes, n - 1);
      assert b in t.byteTokens;
      assert ByteIds(t, bytes, n) == before + [t.byteTokens[b]];
      assert Pieces(t, before + [t.byteTokens[b]]) + rest == Pieces(t, before) + ([Bytes([b])] + rest);
      ByteIdsGather(t, bytes, n - 1, [Bytes([b])] + rest);
      assert ([Bytes([b])] + rest)[1..] == rest;
      assert bytes[..n] == bytes[..n - 1] + [b];
    }
  }

  /** What a piece is shown as: its token with markers as spaces, or, spelled by bytes, itself. */
  function ShownPiece(t: Tokenizer, piece: string): (shown: string)
    ensures |shown| == |piece|
  {
    if piece in t.tokenToId then Normalize(piece) else piece
  }

  function ShownPieces(t: Tokenizer, pieces: seq<string>, n: nat): string
    requires n <= |pieces|
  {
    if n == 0 then "" else ShownPieces(t, pieces, n - 1) + ShownPiece(t, pieces[n - 1])
  }

  function WordPieces(t: Tokenizer, word: string): seq<string> {
    Merged(t.mergesRank, Characters(word))
  }

  function ShownWords(t: Tokenizer, words: seq<string>, n: nat): string
    requires n <= |words|
  {
    if n == 0 then ""
    else
      var pieces := WordPieces(t, words[n - 1]);
      ShownWords(t, words, n - 1) + ShownPieces(t, pieces, |pieces|)
  }

  /** The tokens among the pieces print themselves. */
  ghost predicate PiecesPrint(t: Tokenizer, pieces: seq<string>) {
    forall k :: 0 <= k < |pieces| && pieces[k] in t.tokenToId ==> PrintsItself(t, t.tokenToId[pieces[k]])
  }

  ghost predicate WordsPrint(t: Tokenizer, words: seq<string>) {
    forall w :: 0 <= w < |words| ==> PiecesPrint(t, WordPieces(t, words[w]))
  }

  lemma {:induction false} PiecesShow(t: Tokenizer, pieces: seq<string>, n: nat)
    requires CoversBytes(t) && Indexes(t.tokenToId, t.tokens, |t.tokens|) && n <= |pieces| && PiecesPrint(t, pieces)
    ensures Shows(t, PiecesIds(t, pieces, n), ShownPieces(t, pieces, n))
  {
    hide CoversBytes, PrintsItself, Shows, ByteIds;
    if n == 0 {
      ShowsNothing(t);
    } else {
      var piece := pieces[n - 1];
      PiecesShow(t, pieces, n - 1);
      if piece in t.tokenToId {
        PrintingShows(t, t.tokenToId[piece]);
      } else {
        FallbackShows(t, piece);
      }
      ShowsBoth(t, PiecesIds(t, pieces, n - 1), ShownPieces(t, pieces, n - 1), PieceIds(t, piece), ShownPiece(t, piece));
    }
  }

  lemma {:induction false} WordsShow(t: Tokenizer, words: seq<string>, n: nat)
    requires CoversBytes(t) && Indexes(t.tokenToId, t.tokens, |t.tokens|) && n <= |words| && WordsPrint(t, words)
    ensures Shows(t, WordsIds(t, words, n), ShownWords(t, words, n))
  {
    hide CoversBytes, PiecesPrint, Shows, PiecesIds, ShownPieces;
    if n == 0 {
      ShowsNothing(t);
    } else {
      var pieces := WordPieces(t, words[n - 1]);
      WordsShow(t, words, n - 1);
      PiecesShow(t, pieces, |pieces|);
      var ids, shown := WordsIds(t, words, n - 1), ShownWords(t, words, n - 1);
      ShowsBoth(t, ids, shown, WordIds(t, words[n - 1]), ShownPieces(t, pieces, |pieces|));
    }
  }

  /** Outside the vocabulary there are no markers. */
  predicate MarkersAreTokens(t: Tokenizer, pieces: seq<string>) {
    forall k :: 0 <= k < |pieces| ==> pieces[k] in t.tokenToId || NoMarks(pieces[k])
  }

  predicate WordMarkersAreTokens(t: Tokenizer, words: seq<string>) {
    forall w :: 0 <= w < |words| ==> MarkersAreTokens(t, WordPieces(t, words[w]))
  }

  lemma {:induction false} ShownPiecesExactly(t: Tokenizer, pieces: seq<string>, n: nat)
    requires n <= |pieces|
    ensures |ShownPieces(t, pieces, n)| == |Concat(pieces[..n])|
    ensures ShownPieces(t, pieces, n) == Normalize(Concat(pieces[..n])) <==> MarkersAreTokens(t, pieces[..n])
  {
    hide NoMarks, Normalize;
    if n == 0 {
      EmptyIsNormal();
    } else {
      var piece := pieces[n - 1];
      ShownPiecesExactly(t, pieces, n - 1);
      ConcatNext(pieces, n);
      NormalizeAppend(Concat(pieces[..n - 1]), piece);
      NormalizeUnmarked(piece);
      EqualParts(ShownPieces(t, pieces, n - 1), ShownPiece(t, piece), Normalize(Concat(pieces[..n - 1])), Normalize(piece));
      assert pieces[..n] == pieces[..n - 1] + [piece];
    }
  }

  lemma {:induction false} ShownWordsExactly(t: Tokenizer, words: seq<string>, n: nat)
    requires n <= |words|
    ensures |ShownWords(t, words, n)| == |Concat(words[..n])|
    ensures ShownWords(t, words, n) == Normalize(Concat(words[..n])) <==> WordMarkersAreTokens(t, words[..n])
  {
    hide Normalize, MarkersAreTokens, ShownPieces;
    if n == 0 {
      EmptyIsNormal();
    } else {
      var word := words[n - 1];
      var pieces := WordPieces(t, word);
      ShownWordsExactly(t, words, n - 1);
      ConcatNext(words, n);
      NormalizeAppend(Concat(words[..n - 1]), word);
      MergedKeepsText(t.mergesRank, Characters(word));
      ConcatCharacters(word);
      ShownPiecesExactly(t, pieces, |pieces|);
      assert pieces[..|pieces|] == pieces;
      EqualParts(ShownWords(t, words, n - 1), ShownPieces(t, pieces, |pieces|), Normalize(Concat(words[..n - 1])), Normalize(word));
      assert words[..n] == words[..n - 1] + [word];
    }
  }

  /**
   * With a token for every byte no vocabulary is too small: any text without marker characters, and
   * single-spaced where the vocabulary has a space marker, comes back from byte-pair encoding when the
   * tokens used print themselves, exactly as long as no marker ends up in a piece spelled by bytes.
   */
  lemma {:induction false} AnyTextComesBack(t: Tokenizer, text: string)
    requires CoversBytes(t) && Indexes(t.tokenToId, t.tokens, |t.tokens|) && WordsPrint(t, WordsOf(t, text))
    requires NoMarks(text) && (HasGDot(t) ==> SingleSpaced(text))
    ensures WordMarkersAreTokens(t, WordsOf(t, text)) ==>
      Decoded(t, BpeIds(t, text)) == if t.model == "llama" then TrimStart(text) else text
    ensures t.model != "llama" ==> (Decoded(t, BpeIds(t, text)) == text <==> WordMarkersAreTokens(t, WordsOf(t, text)))
  {
    hide CoversBytes, WordsPrint, WordsOf, WordsIds, ShownWords, Normalize, NoMarks, IsWhitespace, WordMarkersAreTokens, Batch;
    var words := WordsOf(t, text);
    var n := |words|;
    assert words[..n] == words;
    PreTokenizingExactly(t, text);
    WordsShow(t, words, n);
    ShownWordsExactly(t, words, n);
    if text == "" {
      NothingDecoded(t);
      WordsHaveText(t, "");
    } else {
      if HasGDot(t) {
        SingleSpacedHasWord(text);
      }
      WordsHaveText(t, text);
      ShowsAlone(t, WordsIds(t, words, n), ShownWords(t, words, n));
      NothingDecoded(t);
    }
  }

  lemma {:induction false} NothingDecoded(t: Tokenizer)
    ensures Batch(Pieces(t, []), []) == "" && Decoded(t, []) == ""
  {}

  lemma {:induction false} ShowsAlone(t: Tokenizer, ids: seq<nat>, shown: string)
    requires Shows(t, ids, shown)
    ensures Batch(Pieces(t, ids), []) == shown
  {
    hide PieceOf;
    assert Pieces(t, ids) + [] == Pieces(t, ids);
    assert Batch([], []) == "" && shown + "" == shown;
  }
}
