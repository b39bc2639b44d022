/**
 * Incremental decoding: whatever way tokens split the bytes of a text, the streamed output is the
 * batch decoding of each byte run, interleaved with the text tokens.
 */
module TokenDecoding {
  import opened Prelude
  import opened Utf8
  import opened LossyItems
  import opened Vocabulary

  // ---------------------------------------------------------------------------------------------
  // The batch reference
  // ---------------------------------------------------------------------------------------------

  /**
   * All bytes of a run are gathered first and decoded at once. Only a text token ends a run:
   * a suppressed or unknown id does not.
   */
  function Batch(pieces: seq<Piece>, run: seq<byte>): string {
    if pieces == [] then Lossy(run)
    else
      match pieces[0]
      case Silent => Batch(pieces[1..], run)
      case Bytes(bytes) => Batch(pieces[1..], run + bytes)
      case Text(text) => Lossy(run) + text + Batch(pieces[1..], [])
  }

  function Pieces(t: Tokenizer, ids: seq<nat>): (pieces: seq<Piece>)
    ensures |pieces| == |ids|
    ensures forall i :: 0 <= i < |ids| ==> pieces[i] == PieceOf(t, ids[i])
  {
    if ids == [] then [] else [PieceOf(t, ids[0])] + Pieces(t, ids[1..])
  }

  /** A llama vocabulary drops the whitespace before the first visible character. */
  function Emitted(llama: bool, atStart: bool, text: string): string {
    if atStart && llama then TrimStart(text) else text
  }

  /** The whole decoded text: the batch decoding, trimmed once. */
  function Decoded(t: Tokenizer, ids: seq<nat>): string {
    Emitted(t.model == "llama", true, Batch(Pieces(t, ids), []))
  }

  // ---------------------------------------------------------------------------------------------
  // One step of the stream
  // ---------------------------------------------------------------------------------------------

  /** What pushing one piece decides, and what it leaves pending. */
  function Step(pending: seq<byte>, piece: Piece): Drained {
    match piece
    case Silent => Drained("", pending)
    case Bytes(bytes) => Drain(pending + bytes)
    case Text(text) => Drained(Lossy(pending) + text, [])
  }

  /** Deciding early is harmless: what a step emits is a prefix of the batch decoding. */
  lemma {:induction false} EarlyDrain(pieces: seq<Piece>, run: seq<byte>)
    ensures Batch(pieces, run) == Drain(run).text + Batch(pieces, Drain(run).rest)
  {
    var d := Drain(run);
    if pieces == [] {
      DrainThenLossy(run, []);
      assert run + [] == run && d.rest + [] == d.rest;
    } else {
      var tail := pieces[1..];
      match pieces[0]
      case Silent =>
        EarlyDrain(tail, run);
      case Bytes(bytes) =>
        EarlyDrain(tail, run + bytes);
        EarlyDrain(tail, d.rest + bytes);
        DrainTwice(run, bytes);
        Prepend(d.text, Drain(d.rest + bytes).text, Batch(tail, Drain(d.rest + bytes).rest));
      case Text(text) =>
        DrainThenLossy(run, []);
        assert run + [] == run && d.rest + [] == d.rest;
        Prepend(d.text, Lossy(d.rest), text);
        Prepend(d.text, Lossy(d.rest) + text, Batch(tail, []));
    }
  }

  lemma {:induction false} DrainStep(a: seq<byte>, b: seq<byte>)
    requires a != [] && !Scan(a).Incomplete?
    ensures Drain(a + b).rest == Drain(a[Scan(a).n..] + b).rest
    ensures
      var c := if Scan(a).Valid? then CharAt(a) else REPLACEMENT;
      && Drain(a).text == [c] + Drain(a[Scan(a).n..]).text
      && Drain(a + b).text == [c] + Drain(a[Scan(a).n..] + b).text
  {
    ScanIsStable(a, b);
    assert (a + b)[Scan(a).n..] == a[Scan(a).n..] + b;
  }

  /** Draining in two goes decides the same text as draining once. */
  lemma {:induction false} DrainTwice(a: seq<byte>, b: seq<byte>)
    ensures Drain(a + b).text == Drain(a).text + Drain(Drain(a).rest + b).text
    ensures Drain(a + b).rest == Drain(Drain(a).rest + b).rest
    decreases |a|
  {
    if a == [] {
      assert a + b == b;
    } else if !Scan(a).Incomplete? {
      var tail := a[Scan(a).n..];
      DrainStep(a, b);
      DrainTwice(tail, b);
      Prepend(Drain(a).text[..1], Drain(tail).text, Drain(Drain(tail).rest + b).text);
    }
  }

  lemma {:induction false} StepIsBatch(pieces: seq<Piece>, pending: seq<byte>)
    requires pieces != []
    ensures Batch(pieces, pending) == Step(pending, pieces[0]).text + Batch(pieces[1..], Step(pending, pieces[0]).rest)
  {
    match pieces[0]
    case Silent =>
    case Bytes(bytes) =>
      EarlyDrain(pieces[1..], pending + bytes);
    case Text(text) =>
  }

  // ---------------------------------------------------------------------------------------------
  // Trimming once, however the text is cut
  // ---------------------------------------------------------------------------------------------

  lemma {:induction false} TrimAppend(a: string, b: string)
    ensures TrimStart(a + b) == if TrimStart(a) == "" then TrimStart(b) else TrimStart(a) + b
  {
    if a == "" {
      assert a + b == b;
    } else if IsWhitespace(a[0]) {
      assert (a + b)[1..] == a[1..] + b;
      TrimAppend(a[1..], b);
    }
  }

  lemma {:induction false} EmitAppend(llama: bool, atStart: bool, a: string, b: string)
    ensures Emitted(llama, atStart, a + b)
         == Emitted(llama, atStart, a) + Emitted(llama, atStart && Emitted(llama, atStart, a) == "", b)
  {
    TrimAppend(a, b);
  }

  // ---------------------------------------------------------------------------------------------
  // The turns of the draining loop
  // ---------------------------------------------------------------------------------------------

  /** `decided` has been emitted from the front of `s`, and `rest` is what is left. */
  ghost predicate Split(s: seq<byte>, decided: string, rest: seq<byte>) {
    && Drain(s).text == decided + Drain(rest).text
    && Drain(s).rest == Drain(rest).rest
    && Lossy(s) == decided + Lossy(rest)
  }

  lemma {:induction false} SplitValid(s: seq<byte>, decided: string, rest: seq<byte>, v: nat, valid: string)
    requires Split(s, decided, rest)
    requires v <= |rest| && FromUtf8(rest[..v]) == Ok(valid)
    ensures Split(s, decided + valid, rest[v..])
  {
    assert rest == rest[..v] + rest[v..];
    ValidThen(rest[..v], valid, rest[v..]);
    Prepend(decided, valid, Drain(rest[v..]).text);
    Prepend(decided, valid, Lossy(rest[v..]));
  }

  lemma {:induction false} SplitInvalid(s: seq<byte>, decided: string, rest: seq<byte>, n: nat)
    requires Split(s, decided, rest)
    requires rest != [] && Scan(rest) == Invalid(n)
    ensures Split(s, decided + [REPLACEMENT], rest[n..])
  {
    Prepend(decided, [REPLACEMENT], Drain(rest[n..]).text);
    Prepend(decided, [REPLACEMENT], Lossy(rest[n..]));
  }

  lemma {:induction false} SplitDone(s: seq<byte>, decided: string)
    requires Split(s, decided, [])
    ensures Drain(s) == Drained(decided, []) && Lossy(s) == decided
  {}

  lemma {:induction false} SplitIncomplete(s: seq<byte>, decided: string, rest: seq<byte>)
    requires Split(s, decided, rest)
    requires FromUtf8(rest) == Err(Utf8Error(0, None))
    ensures Drain(s) == Drained(decided, rest) && Lossy(s) == decided + Lossy(rest)
  {
    assert rest != [] && Scan(rest).Incomplete?;
  }

  // ---------------------------------------------------------------------------------------------
  // The decoder
  // ---------------------------------------------------------------------------------------------

  class TokenDecoder {
    const tokenizer: Tokenizer
    var pendingBytes: seq<byte>
    var atStart: bool

    /** Between calls, what is pending is a proper prefix of one well-formed sequence. */
    ghost predicate Valid()
      reads this
    {
      Pending(pendingBytes) && (pendingBytes == [] || Scan(pendingBytes).Incomplete?)
    }

    ghost predicate Llama() {
      tokenizer.model == "llama"
    }

    constructor (tokenizer: Tokenizer)
      ensures this.tokenizer == tokenizer
      ensures pendingBytes == [] && atStart && Valid()
    {
      this.tokenizer := tokenizer;
      pendingBytes := [];
      atStart := true;
    }

    method EmitText(text: string) returns (emitted: string)
      modifies this`atStart
      ensures emitted == Emitted(Llama(), old(atStart), text)
      ensures atStart == (old(atStart) && emitted == "")
    {
      emitted := if atStart && tokenizer.model == "llama" then TrimStart(text) else text;
      if emitted != "" {
        atStart := false;
      }
    }

    /** Adds the emission of `text` to an output so far; trimming goes on where it left off. */
    method EmitAfter(output: string, text: string, ghost decided: string, ghost start: bool) returns (more: string)
      requires output == Emitted(Llama(), start, decided) && atStart == (start && output == "")
      modifies this`atStart
      ensures more == Emitted(Llama(), start, decided + text) && atStart == (start && more == "")
    {
      EmitAppend(Llama(), start, decided, text);
      var emitted := EmitText(text);
      more := output + emitted;
    }

    /** Emits everything the pending bytes decide; at the end of a run, everything. */
    method DrainBytes(finish: bool) returns (output: string)
      modifies this
      ensures
        var text := if finish then Lossy(old(pendingBytes)) else Drain(old(pendingBytes)).text;
        output == Emitted(Llama(), old(atStart), text)
      ensures pendingBytes == if finish then [] else Drain(old(pendingBytes)).rest
      ensures atStart == (old(atStart) && output == "")
      ensures Valid()
    {
      output := "";
      ghost var start := pendingBytes;
      ghost var text := if finish then Lossy(start) else Drain(start).text;
      ghost var decided := "";
      DrainLeavesPending(start);
      while true
        invariant output == Emitted(Llama(), old(atStart), decided)
        invariant atStart == (old(atStart) && output == "")
        invariant Split(start, decided, pendingBytes)
        decreases |pendingBytes|
      {
        if pendingBytes == [] {
          SplitDone(start, decided);
          break;
        }
        var bytes := pendingBytes;
        match FromUtf8(bytes) {
          case Ok(valid) =>
            assert bytes[..|bytes|] == bytes && bytes[|bytes|..] == [];
            SplitValid(start, decided, bytes, |bytes|, valid);
            pendingBytes := [];
            output := EmitAfter(output, valid, decided, old(atStart));
            decided := decided + valid;
            SplitDone(start, decided);
            break;
          case Err(error) =>
            if error.validUpTo > 0 {
              ValidPrefix(bytes, error.validUpTo);
              var valid := FromUtf8(bytes[..error.validUpTo]).value;
              SplitValid(start, decided, bytes, error.validUpTo, valid);
              pendingBytes := bytes[error.validUpTo..];
              output := EmitAfter(output, valid, decided, old(atStart));
              decided := decided + valid;
              continue;
            }
            if error.errorLen.Some? {
              SplitInvalid(start, decided, bytes, error.errorLen.value);
              pendingBytes := bytes[error.errorLen.value..];
              output := EmitAfter(output, [REPLACEMENT], decided, old(atStart));
              decided := decided + [REPLACEMENT];
              continue;
            }
            SplitIncomplete(start, decided, bytes);
            if finish {
              var lossy := Lossy(bytes);
              pendingBytes := [];
              output := EmitAfter(output, lossy, decided, old(atStart));
              decided := decided + lossy;
            }
            break;
        }
      }
      assert decided == text;
    }

    method PushBytes(bytes: seq<byte>) returns (output: string)
      modifies this
      ensures output == Emitted(Llama(), old(atStart), Drain(old(pendingBytes) + bytes).text)
      ensures pendingBytes == Drain(old(pendingBytes) + bytes).rest
      ensures atStart == (old(atStart) && output == "")
      ensures Valid()
    {
      pendingBytes := pendingBytes + bytes;
      output := DrainBytes(false);
    }

    method PushText(text: string) returns (output: string)
      modifies this
      ensures output == Emitted(Llama(), old(atStart), Lossy(old(pendingBytes)) + text)
      ensures pendingBytes == []
      ensures atStart == (old(atStart) && output == "")
      ensures Valid()
    {
      EmitAppend(Llama(), atStart, Lossy(pendingBytes), text);
      output := DrainBytes(true);
      var emitted := EmitText(text);
      output := output + emitted;
    }

    /** One generated token. */
    method Push(id: nat) returns (output: string)
      requires Valid()
      modifies this
      ensures output == Emitted(Llama(), old(atStart), Step(old(pendingBytes), PieceOf(tokenizer, id)).text)
      ensures pendingBytes == Step(old(pendingBytes), PieceOf(tokenizer, id)).rest
      ensures atStart == (old(atStart) && output == "")
      ensures Valid()
    {
      if (Some(id) == tokenizer.bosId || Some(id) == tokenizer.eosId) && TypeOf(tokenizer, id) == Some(Control) {
        return "";
      }
      if id >= |tokenizer.tokens| {
        return "";
      }
      var token := tokenizer.tokens[id];
      if "<0x" <= token && token[|token| - 1] == '>' && |EncodeAll(token)| == 6 {
        match HexByte(token[3..|token| - 1])
        case Some(b) =>
          output := PushBytes([b]);
          return;
        case None =>
      }
      if TypeOf(tokenizer, id) == Some(Byte) && |EncodeAll(token)| == 1 {
        var bytes := EncodeAll(token);
        assert [bytes[0]] == bytes;
        output := PushBytes([bytes[0]]);
        return;
      }
      if UsesGpt2Bytes(tokenizer) {
        match Gpt2TokenBytes(token)
        case Some(bytes) =>
          output := PushBytes(bytes);
          return;
        case None =>
      }
      output := PushText(Normalize(token));
    }

    method Finish() returns (output: string)
      modifies this
      ensures output == Emitted(Llama(), old(atStart), Lossy(old(pendingBytes)))
      ensures pendingBytes == [] && Valid()
    {
      output := DrainBytes(true);
    }
  }

  /** The concatenated outputs of pushing every id and finishing are the batch decoding. */
  method Decode(t: Tokenizer, ids: seq<nat>) returns (text: string)
    ensures text == Decoded(t, ids)
    ensures forall s :: WriteBytes(t, ids, EncodeAll(s)) ==> text == if t.model == "llama" then TrimStart(s) else s
    ensures t.model in {"gpt2", "qwen2"} ==>
      forall s :: Heard(t, ids) == Gpt2Spelling(EncodeAll(s)) ==> (text == s <==> NoneWritesByte(t, ids))
  {
    DecodedTexts(t, ids);
    var decoder := new TokenDecoder(t);
    var llama := t.model == "llama";
    ghost var pieces := Pieces(t, ids);
    ghost var raw := "";
    text := "";
    for i := 0 to |ids|
      invariant decoder.Valid() && decoder.tokenizer == t
      invariant text == Emitted(llama, true, raw)
      invariant decoder.atStart == (text == "")
      invariant Batch(pieces, []) == raw + Batch(pieces[i..], decoder.pendingBytes)
    {
      ghost var pending := decoder.pendingBytes;
      StepIsBatch(pieces[i..], pending);
      assert pieces[i..][1..] == pieces[i + 1..];
      ghost var step := Step(pending, pieces[i]);
      EmitAppend(llama, true, raw, step.text);
      Prepend(raw, step.text, Batch(pieces[i + 1..], step.rest));
      var output := decoder.Push(ids[i]);
      text := text + output;
      raw := raw + step.text;
    }
    EmitAppend(llama, true, raw, Lossy(decoder.pendingBytes));
    var output := decoder.Finish();
    text := text + output;
  }

  // ---------------------------------------------------------------------------------------------
  // What the batch reference promises
  // ---------------------------------------------------------------------------------------------

  predicate AllBytes(pieces: seq<Piece>) {
    forall i :: 0 <= i < |pieces| ==> !pieces[i].Text?
  }

  /** All the bytes of a run, whichever tokens carry them. */
  function BytesOf(pieces: seq<Piece>): seq<byte> {
    if pieces == [] then []
    else (if pieces[0].Bytes? then pieces[0].bytes else []) + BytesOf(pieces[1..])
  }

  lemma {:induction false} BatchOfBytes(pieces: seq<Piece>, run: seq<byte>)
    requires AllBytes(pieces)
    ensures Batch(pieces, run) == Lossy(run + BytesOf(pieces))
  {
    if pieces == [] {
      assert run + [] == run;
    } else {
      var bytes := if pieces[0].Bytes? then pieces[0].bytes else [];
      assert run + [] == run;
      BatchOfBytes(pieces[1..], run + bytes);
      Prepend(run, bytes, BytesOf(pieces[1..]));
    }
  }

  /**
   * However byte tokens cut the encoding of a text, even inside a character, and wherever silent
   * ids fall between them, decoding gives the text back.
   */
  lemma {:induction false} ByteTokensDecodeToText(t: Tokenizer, ids: seq<nat>, text: string)
    requires AllBytes(Pieces(t, ids)) && BytesOf(Pieces(t, ids)) == EncodeAll(text)
    ensures Decoded(t, ids) == Emitted(t.model == "llama", true, text)
  {
    BatchOfBytes(Pieces(t, ids), []);
    assert [] + EncodeAll(text) == EncodeAll(text);
    LossyOfEncoding(text);
  }

  // ---------------------------------------------------------------------------------------------
  // What ids decode to, by the strings of their tokens
  // ---------------------------------------------------------------------------------------------

  /** An id that is passed over might as well not be there. */
  lemma {:induction false} SkippedIdsVanish(t: Tokenizer, a: seq<nat>, id: nat, b: seq<nat>)
    requires Skipped(t, id)
    ensures Decoded(t, a + [id] + b) == Decoded(t, a + b)
  {
    hide PieceOf, Batch;
    PieceOfExactly(t, id);
    PiecesAround(t, a + [id] + b, |a|);
    assert (a + [id] + b)[..|a|] == a && (a + [id] + b)[|a| + 1..] == b;
    PiecesAppend(t, a, b);
    hide Pieces;
    SilentVanishes(Pieces(t, a), Pieces(t, b), []);
  }

  lemma {:induction false} PiecesAppend(t: Tokenizer, a: seq<nat>, b: seq<nat>)
    ensures Pieces(t, a + b) == Pieces(t, a) + Pieces(t, b)
  {
    hide PieceOf;
  }

  lemma {:induction false} SilentVanishes(a: seq<Piece>, b: seq<Piece>, run: seq<byte>)
    ensures Batch(a + [Silent] + b, run) == Batch(a + b, run)
  {
    if a == [] {
      assert [] + [Silent] + b == [Silent] + b && ([Silent] + b)[1..] == b && [] + b == b;
    } else {
      assert (a + [Silent] + b)[1..] == a[1..] + [Silent] + b && (a + b)[1..] == a[1..] + b;
      match a[0]
      case Silent => SilentVanishes(a[1..], b, run);
      case Bytes(bytes) => SilentVanishes(a[1..], b, run + bytes);
      case Text(_) => SilentVanishes(a[1..], b, []);
    }
  }

  /** Ids passed over aside, the tokens write `bytes`, one byte each. */
  ghost predicate WriteBytes(t: Tokenizer, ids: seq<nat>, bytes: seq<byte>) {
    if ids == [] then bytes == []
    else if Skipped(t, ids[0]) then WriteBytes(t, ids[1..], bytes)
    else bytes != [] && WritesByte(t.tokens[ids[0]], bytes[0]) && WriteBytes(t, ids[1..], bytes[1..])
  }

  lemma {:induction false} WrittenPieces(t: Tokenizer, ids: seq<nat>, bytes: seq<byte>)
    requires WriteBytes(t, ids, bytes)
    ensures AllBytes(Pieces(t, ids)) && BytesOf(Pieces(t, ids)) == bytes
  {
    hide PieceOf, WritesByte;
    if ids != [] {
      var pieces := Pieces(t, ids);
      PieceOfExactly(t, ids[0]);
      assert pieces[1..] == Pieces(t, ids[1..]);
      if Skipped(t, ids[0]) {
        WrittenPieces(t, ids[1..], bytes);
      } else {
        assert pieces[0] == Bytes([bytes[0]]);
        WrittenPieces(t, ids[1..], bytes[1..]);
        assert bytes == [bytes[0]] + bytes[1..];
      }
      forall i | 0 <= i < |pieces| ensures !pieces[i].Text? {
        assert i > 0 ==> pieces[i] == pieces[1..][i - 1];
      }
    }
  }

  /** The `<0xHH>` tokens of a text's encoding, in either case, decode to the text. */
  lemma {:induction false} HexTokensDecodeToText(t: Tokenizer, ids: seq<nat>, text: string)
    requires WriteBytes(t, ids, EncodeAll(text))
    ensures Decoded(t, ids) == if t.model == "llama" then TrimStart(text) else text
  {
    WrittenPieces(t, ids, EncodeAll(text));
    ByteTokensDecodeToText(t, ids, text);
  }

  /** The tokens of all ids that are not passed over, joined. */
  function Heard(t: Tokenizer, ids: seq<nat>): string {
    if ids == [] then ""
    else (if Skipped(t, ids[0]) then "" else t.tokens[ids[0]]) + Heard(t, ids[1..])
  }

  /** No token among them is one that writes a byte. */
  ghost predicate NoneWritesByte(t: Tokenizer, ids: seq<nat>) {
    forall i :: 0 <= i < |ids| && !Skipped(t, ids[i]) ==> !WritesSomeByte(t.tokens[ids[i]])
  }

  /** A token that spells bytes, and does not write one, contributes them. */
  lemma {:induction false} SpellingPiece(t: Tokenizer, id: nat, bytes: seq<byte>)
    requires t.model in {"gpt2", "qwen2"} && !Skipped(t, id)
    requires t.tokens[id] == Gpt2Spelling(bytes) && !WritesSomeByte(t.tokens[id])
    ensures PieceOf(t, id) == Bytes(bytes)
  {
    hide PieceOf, WritesByte, Gpt2TokenBytes;
    PieceOfExactly(t, id);
    Gpt2TokenInverse(t.tokens[id], bytes);
    if IsByteCharacter(t, id) {
      SpellingAt(bytes, 0);
      Gpt2AlphabetInverse(t.tokens[id][0], bytes[0]);
      assert |Gpt2Spelling(bytes[1..])| == 0;
      assert bytes == [bytes[0]];
    } else {
      assert SpellsBytes(t.tokens[id]);
      var spelled :| t.tokens[id] == Gpt2Spelling(spelled) && PieceOf(t, id) == Bytes(spelled);
      Gpt2TokenInverse(t.tokens[id], spelled);
    }
  }

  lemma {:induction false} NothingSpelled(bytes: seq<byte>)
    ensures Gpt2Spelling(bytes) == "" <==> bytes == []
  {}

  lemma {:induction false} SpellingPieces(t: Tokenizer, ids: seq<nat>, bytes: seq<byte>)
    requires t.model in {"gpt2", "qwen2"} && Heard(t, ids) == Gpt2Spelling(bytes) && NoneWritesByte(t, ids)
    ensures AllBytes(Pieces(t, ids)) && BytesOf(Pieces(t, ids)) == bytes
  {
    hide PieceOf, WritesSomeByte, SpellsBytes, Gpt2Spelling;
    if ids == [] {
      NothingSpelled(bytes);
    } else {
      var pieces := Pieces(t, ids);
      PieceOfExactly(t, ids[0]);
      assert pieces[1..] == Pieces(t, ids[1..]);
      if Skipped(t, ids[0]) {
        SpellingPieces(t, ids[1..], bytes);
      } else {
        var n := |t.tokens[ids[0]]|;
        SpellingCuts(bytes, t.tokens[ids[0]], Heard(t, ids[1..]));
        SpellingPiece(t, ids[0], bytes[..n]);
        SpellingPieces(t, ids[1..], bytes[n..]);
        assert bytes == bytes[..n] + bytes[n..];
      }
      forall i | 0 <= i < |pieces| ensures !pieces[i].Text? {
        assert i > 0 ==> pieces[i] == pieces[1..][i - 1];
      }
    }
  }

  lemma {:induction false} HeardAppend(t: Tokenizer, a: seq<nat>, b: seq<nat>)
    ensures Heard(t, a + b) == Heard(t, a) + Heard(t, b)
  {
    if a == [] {
      assert a + b == b;
    } else {
      assert (a + b)[1..] == a[1..] + b;
      HeardAppend(t, a[1..], b);
      Prepend(if Skipped(t, a[0]) then "" else t.tokens[a[0]], Heard(t, a[1..]), Heard(t, b));
    }
  }

  lemma {:induction false} BytesOfAppend(a: seq<Piece>, b: seq<Piece>)
    ensures BytesOf(a + b) == BytesOf(a) + BytesOf(b)
  {
    if a == [] {
      assert a + b == b;
    } else {
      assert (a + b)[1..] == a[1..] + b;
      BytesOfAppend(a[1..], b);
      Prepend(if a[0].Bytes? then a[0].bytes else [], BytesOf(a[1..]), BytesOf(b));
    }
  }

  lemma {:induction false} FirstThatWritesByte(t: Tokenizer, ids: seq<nat>) returns (j: nat)
    requires !NoneWritesByte(t, ids)
    ensures j < |ids| && !Skipped(t, ids[j]) && WritesSomeByte(t.tokens[ids[j]])
    ensures NoneWritesByte(t, ids[..j])
  {
    hide WritesSomeByte;
    if !Skipped(t, ids[0]) && WritesSomeByte(t.tokens[ids[0]]) {
      j := 0;
    } else {
      var i :| 0 <= i < |ids| && !Skipped(t, ids[i]) && WritesSomeByte(t.tokens[ids[i]]);
      assert ids[1..][i - 1] == ids[i];
      var k := FirstThatWritesByte(t, ids[1..]);
      j := k + 1;
      forall i | 0 <= i < j && !Skipped(t, ids[..j][i]) ensures !WritesSomeByte(t.tokens[ids[..j][i]]) {
        assert i > 0 ==> ids[..j][i] == ids[1..][..k][i - 1];
      }
    }
  }

  /** A token that writes a byte is six characters, the outer two of them brackets. */
  lemma {:induction false} BracketsSpell(token: string, bytes: seq<byte>)
    requires WritesSomeByte(token) && token == Gpt2Spelling(bytes)
    ensures |bytes| == 6 && bytes[0] == 0x3C && bytes[5] == 0x3E
  {
    var b: byte :| WritesByte(token, b);
    assert |token| == 6 && token[0] == '<' && token[5] == '>';
    SpellingLength(bytes);
    SpellingAt(bytes, 0);
    SpellingAt(bytes, 5);
    Gpt2AlphabetInverse('<', bytes[0]);
    Gpt2AlphabetInverse('>', bytes[5]);
  }

  /** Six such bytes in an encoding are six characters of the text. */
  lemma {:induction false} BracketsCut(text: string, a: seq<byte>, m: seq<byte>, b: seq<byte>) returns (k: nat, rest: string)
    requires EncodeAll(text) == a + m + b && |m| == 6 && m[0] == 0x3C && m[5] == 0x3E
    ensures k < |text| && EncodeAll(text[..k]) == a && EncodeAll(rest) == b && k + 2 + |rest| <= |text|
  {
    assert a + m + b == a + [m[0]] + (m[1..] + b);
    k := AsciiCuts(text, a, m[0], m[1..] + b);
    assert m[1..] + b == m[1..5] + [m[5]] + b;
    var j := AsciiCuts(text[k + 1..], m[1..5], m[5], b);
    rest := text[k + 1..][j + 1..];
  }

  /** The bytes that spelling tokens contribute, by the characters they are made of. */
  lemma {:induction false} SpelledItems(t: Tokenizer, ids: seq<nat>, text: string) returns (items: seq<Item>)
    requires t.model in {"gpt2", "qwen2"} && Heard(t, ids) == Gpt2Spelling(EncodeAll(text))
    ensures AllBytes(Pieces(t, ids)) && BytesOf(Pieces(t, ids)) == ItemBytes(items)
    ensures if NoneWritesByte(t, ids) then items == Wholes(text) else |items| < |text|
    decreases |ids|
  {
    hide PieceOf, WritesSomeByte, Gpt2Spelling, EncodeAll, Heard, BytesOf, ItemBytes, NoneWritesByte;
    if NoneWritesByte(t, ids) {
      SpellingPieces(t, ids, EncodeAll(text));
      items := Wholes(text);
      BytesOfWholes(text);
    } else {
      var j := FirstThatWritesByte(t, ids);
      var k, rest, b := AroundByteToken(t, ids, j, text);
      var after := SpelledItems(t, ids[j + 1..], rest);
      items := Wholes(text[..k]) + [Lone(b)] + after;
      BytesOfWholes(text[..k]);
      JoinedItems(Wholes(text[..k]), b, after);
      SpellingPieces(t, ids[..j], EncodeAll(text[..k]));
      JoinedPieces(t, ids, j, b);
    }
  }

  lemma {:induction false} JoinedItems(before: seq<Item>, b: byte, after: seq<Item>)
    ensures ItemBytes(before + [Lone(b)] + after) == ItemBytes(before) + [b] + ItemBytes(after)
  {
    assert [Lone(b)][1..] == [];
    ItemBytesAppend(before, [Lone(b)]);
    ItemBytesAppend(before + [Lone(b)], after);
  }

  lemma {:induction false} PiecesAround(t: Tokenizer, ids: seq<nat>, j: nat)
    requires j < |ids|
    ensures Pieces(t, ids) == Pieces(t, ids[..j]) + [PieceOf(t, ids[j])] + Pieces(t, ids[j + 1..])
  {
    hide PieceOf;
  }

  lemma {:induction false} JoinedPieces(t: Tokenizer, ids: seq<nat>, j: nat, b: byte)
    requires j < |ids| && PieceOf(t, ids[j]) == Bytes([b])
    requires AllBytes(Pieces(t, ids[..j])) && AllBytes(Pieces(t, ids[j + 1..]))
    ensures AllBytes(Pieces(t, ids))
    ensures BytesOf(Pieces(t, ids)) == BytesOf(Pieces(t, ids[..j])) + [b] + BytesOf(Pieces(t, ids[j + 1..]))
  {
    hide PieceOf, Pieces;
    var before, after := Pieces(t, ids[..j]), Pieces(t, ids[j + 1..]);
    PiecesAround(t, ids, j);
    BytesOfAppend(before, [Bytes([b])]);
    BytesOfAppend(before + [Bytes([b])], after);
    assert [Bytes([b])][1..] == [] && BytesOf([Bytes([b])]) == [b];
  }

  /** Where a token that writes a byte stands in the text that is spelled, and what it contributes. */
  lemma {:induction false} AroundByteToken(t: Tokenizer, ids: seq<nat>, j: nat, text: string) returns (k: nat, rest: string, b: byte)
    requires Heard(t, ids) == Gpt2Spelling(EncodeAll(text))
    requires j < |ids| && !Skipped(t, ids[j]) && WritesSomeByte(t.tokens[ids[j]])
    ensures k + 2 + |rest| <= |text| && PieceOf(t, ids[j]) == Bytes([b])
    ensures Heard(t, ids[..j]) == Gpt2Spelling(EncodeAll(text[..k]))
    ensures Heard(t, ids[j + 1..]) == Gpt2Spelling(EncodeAll(rest))
  {
    hide PieceOf, WritesByte, Gpt2Spelling, EncodeAll;
    var token, bytes := t.tokens[ids[j]], EncodeAll(text);
    PieceOfExactly(t, ids[j]);
    b :| WritesByte(token, b);
    assert ids == ids[..j] + ids[j..];
    HeardAppend(t, ids[..j], ids[j..]);
    assert ids[j..][1..] == ids[j + 1..];
    assert Heard(t, ids[j..]) == token + Heard(t, ids[j + 1..]);
    hide Heard;
    var n := |Heard(t, ids[..j])|;
    SpellingCuts(bytes, Heard(t, ids[..j]), Heard(t, ids[j..]));
    SpellingCuts(bytes[n..], token, Heard(t, ids[j + 1..]));
    var middle := bytes[n..][..|token|];
    BracketsSpell(token, middle);
    assert bytes == bytes[..n] + middle + bytes[n..][|token|..];
    k, rest := BracketsCut(text, bytes[..n], middle, bytes[n..][|token|..]);
  }

  /**
   * Tokens that together spell a text's encoding in GPT-2's alphabet, however they cut it, decode to
   * the text exactly when none of them happens to be written like a byte token.
   */
  lemma {:induction false} SpellingTokensDecodeToText(t: Tokenizer, ids: seq<nat>, text: string)
    requires t.model in {"gpt2", "qwen2"} && Heard(t, ids) == Gpt2Spelling(EncodeAll(text))
    ensures Decoded(t, ids) == text <==> NoneWritesByte(t, ids)
  {
    hide PieceOf, NoneWritesByte, Gpt2Spelling, EncodeAll, Heard, BytesOf, ItemBytes, AllBytes;
    var items := SpelledItems(t, ids, text);
    BatchOfBytes(Pieces(t, ids), []);
    assert [] + BytesOf(Pieces(t, ids)) == BytesOf(Pieces(t, ids));
    LossyOfItems(items);
    if NoneWritesByte(t, ids) {
      BytesOfWholes(text);
      LossyOfEncoding(text);
    }
  }

  lemma {:induction false} DecodedTexts(t: Tokenizer, ids: seq<nat>)
    ensures forall s :: WriteBytes(t, ids, EncodeAll(s)) ==> Decoded(t, ids) == if t.model == "llama" then TrimStart(s) else s
    ensures t.model in {"gpt2", "qwen2"} ==>
      forall s :: Heard(t, ids) == Gpt2Spelling(EncodeAll(s)) ==> (Decoded(t, ids) == s <==> NoneWritesByte(t, ids))
  {
    hide WriteBytes, Decoded, Heard, NoneWritesByte, EncodeAll, Gpt2Spelling, TrimStart;
    forall s | WriteBytes(t, ids, EncodeAll(s))
      ensures Decoded(t, ids) == if t.model == "llama" then TrimStart(s) else s
    {
      HexTokensDecodeToText(t, ids, s);
    }
    if t.model in {"gpt2", "qwen2"} {
      forall s | Heard(t, ids) == Gpt2Spelling(EncodeAll(s)) ensures Decoded(t, ids) == s <==> NoneWritesByte(t, ids) {
        SpellingTokensDecodeToText(t, ids, s);
      }
    }
  }

  /** A vocabulary entry that reads like a byte token is decoded as one, whatever it was meant to spell. */
  lemma {:induction false} SpellingReadAsByte(t: Tokenizer)
    requires t.model == "gpt2" && t.tokens == ["<0x41>"] && t.tokenTypes == [Normal]
    ensures Heard(t, [0]) == Gpt2Spelling(EncodeAll("<0x41>")) && Decoded(t, [0]) == "A"
  {
    assert "<0x41>" == "<0x" + TwoDigits(0x41, true, true) + ">";
    assert WritesByte(t.tokens[0], 0x41);
    assert EncodeAll("A") == [0x41] by {
      assert "A"[1..] == "";
    }
    assert [0][1..] == [] && [0x41][1..] == [];
    assert WriteBytes(t, [0], EncodeAll("A"));
    HexTokensDecodeToText(t, [0], "A");
    assert Heard(t, [0]) == "<0x41>";
    AsciiSpelling("<0x41>");
  }

  /** Printing ASCII is spelled as it is. */
  lemma {:induction false} AsciiSpelling(text: string)
    requires forall i :: 0 <= i < |text| ==> '!' <= text[i] <= '~'
    ensures Gpt2Spelling(EncodeAll(text)) == text
  {
    if text != "" {
      AsciiSpelling(text[1..]);
      assert EncodeAll(text)[1..] == EncodeAll(text[1..]);
    }
  }
}
