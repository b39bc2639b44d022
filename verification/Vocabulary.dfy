/** The tokenizer's immutable tables, and how one vocabulary entry is read back as output. */
module Vocabulary {
  import opened Prelude
  import opened Utf8

  datatype TokenType = Normal | Unknown | Control | UserDefined | Unused | Byte

  /** Scores are exact reals: rounding of `f32` additions is not part of this model. */
  datatype Tokenizer = Tokenizer(
    model: string,
    pre: Option<string>,
    tokens: seq<string>,
    scores: seq<real>,
    tokenTypes: seq<TokenType>,
    hasMerges: bool,
    addBos: bool,
    addEos: bool,
    bosId: Option<nat>,
    eosId: Option<nat>,
    unkId: Option<nat>,
    tokenToId: map<string, nat>,
    mergesRank: map<(string, string), nat>,
    byteTokens: map<byte, nat>,
    specialTokens: seq<(string, nat)>)

  // ---------------------------------------------------------------------------------------------
  // The token index: the first occurrence of a duplicated token wins
  // ---------------------------------------------------------------------------------------------

  /** `index` maps exactly the first `n` tokens, each to its first position. */
  ghost predicate Indexes(index: map<string, nat>, tokens: seq<string>, n: nat)
    requires n <= |tokens|
  {
    && (forall i :: 0 <= i < n ==> tokens[i] in index && index[tokens[i]] <= i)
    && (forall t :: t in index ==> index[t] < n && tokens[index[t]] == t)
  }

  method IndexTokens(tokens: seq<string>) returns (index: map<string, nat>)
    ensures Indexes(index, tokens, |tokens|)
  {
    index := map[];
    for i := 0 to |tokens|
      invariant Indexes(index, tokens, i)
    {
      if tokens[i] !in index {
        index := index[tokens[i] := i];
      }
    }
  }

  // ---------------------------------------------------------------------------------------------
  // Characters
  // ---------------------------------------------------------------------------------------------

  /** U+2581, the SentencePiece space marker. */
  const SPACE_MARK: char := '\U{2581}'

  /** U+0120, the GPT-2 image of the space byte. */
  const G_DOT: char := '\U{0120}'

  /** Unicode's White_Space property. */
  predicate IsWhitespace(c: char) {
    var cp := c as int;
    || 0x09 <= cp <= 0x0D || cp == 0x20 || cp == 0x85 || cp == 0xA0 || cp == 0x1680
    || 0x2000 <= cp <= 0x200A || cp == 0x2028 || cp == 0x2029 || cp == 0x202F || cp == 0x205F || cp == 0x3000
  }

  /** They are the twenty-five characters of that property. */
  lemma {:induction false} WhitespaceExactly(c: char)
    ensures IsWhitespace(c) <==>
      c in "\t\n\U{0B}\U{0C}\r \U{85}\U{A0}\U{1680}\U{2000}\U{2001}\U{2002}\U{2003}\U{2004}\U{2005}\U{2006}\U{2007}"
           + "\U{2008}\U{2009}\U{200A}\U{2028}\U{2029}\U{202F}\U{205F}\U{3000}"
  {
    var a := "\t\n\U{0B}\U{0C}\r \U{85}\U{A0}\U{1680}\U{2000}\U{2001}\U{2002}\U{2003}\U{2004}\U{2005}\U{2006}\U{2007}";
    var b := "\U{2008}\U{2009}\U{200A}\U{2028}\U{2029}\U{202F}\U{205F}\U{3000}";
    assert c in a + b <==> c in a || c in b;
  }

  function TrimStart(text: string): string {
    if text != "" && IsWhitespace(text[0]) then TrimStart(text[1..]) else text
  }

  /** Both space markers become a space. */
  function Normalize(text: string): (r: string)
    ensures |r| == |text|
  {
    if text == "" then ""
    else [if text[0] == SPACE_MARK || text[0] == G_DOT then ' ' else text[0]] + Normalize(text[1..])
  }

  lemma {:induction false} NormalizeAppend(a: string, b: string)
    ensures Normalize(a + b) == Normalize(a) + Normalize(b)
  {
    if a == "" {
      assert a + b == b;
    } else {
      assert (a + b)[1..] == a[1..] + b;
      NormalizeAppend(a[1..], b);
    }
  }

  // ---------------------------------------------------------------------------------------------
  // GPT-2's byte alphabet
  // ---------------------------------------------------------------------------------------------

  function Gpt2CharToByte(c: char): Option<byte> {
    var cp := c as int;
    if 0x21 <= cp <= 0x7E || 0xA1 <= cp <= 0xAC || 0xAE <= cp <= 0xFF then Some(cp)
    else if 0x100 <= cp <= 0x120 then Some(cp - 0x100)
    else if 0x121 <= cp <= 0x142 then Some(127 + (cp - 0x121))
    else if cp == 0x143 then Some(0xAD)
    else None
  }

  /** GPT-2 keeps these bytes as they are; they print. */
  predicate Prints(b: byte) {
    0x21 <= b <= 0x7E || 0xA1 <= b <= 0xAC || 0xAE <= b
  }

  /** How many bytes below `b` do not print. */
  function Unprintable(b: nat): nat
    requires b <= 256
  {
    if b == 0 then 0 else Unprintable(b - 1) + if Prints(b - 1) then 0 else 1
  }

  lemma {:induction false} UnprintableRanges(b: nat)
    requires b <= 256
    ensures Unprintable(b) ==
      if b <= 0x21 then b
      else if b <= 0x7F then 0x21
      else if b <= 0xA1 then b - 0x5E
      else if b <= 0xAD then 0x43
      else 0x44
  {
    if b > 0 {
      UnprintableRanges(b - 1);
    }
  }

  /** GPT-2's definition: the n-th byte that does not print becomes U+0100 + n. */
  function ByteToUnicode(b: byte): char {
    UnprintableRanges(b);
    if Prints(b) then b as char else (0x100 + Unprintable(b)) as char
  }

  /** The table of ranges in the decoder is exactly the inverse of GPT-2's definition. */
  lemma {:induction false} Gpt2AlphabetInverse(c: char, b: byte)
    ensures Gpt2CharToByte(c) == Some(b) <==> c == ByteToUnicode(b)
  {
    UnprintableRanges(b);
  }

  function Gpt2TokenBytes(token: string): Option<seq<byte>> {
    if token == "" then Some([])
    else
      match Gpt2CharToByte(token[0])
      case None => None
      case Some(b) =>
        match Gpt2TokenBytes(token[1..])
        case None => None
        case Some(rest) => Some([b] + rest)
  }

  function Gpt2Spelling(bytes: seq<byte>): string {
    if bytes == [] then "" else [ByteToUnicode(bytes[0])] + Gpt2Spelling(bytes[1..])
  }

  /** A token is decoded to bytes exactly when it spells those bytes in the alphabet. */
  lemma {:induction false} Gpt2TokenInverse(token: string, bytes: seq<byte>)
    ensures Gpt2TokenBytes(token) == Some(bytes) <==> token == Gpt2Spelling(bytes)
  {
    if token != "" && bytes != [] {
      Gpt2AlphabetInverse(token[0], bytes[0]);
      Gpt2TokenInverse(token[1..], bytes[1..]);
      assert bytes == [bytes[0]] + bytes[1..];
      if Gpt2TokenBytes(token) == Some(bytes) {
        var rest := Gpt2TokenBytes(token[1..]).value;
        assert bytes == [Gpt2CharToByte(token[0]).value] + rest;
        assert bytes[1..] == rest;
        assert token == [token[0]] + token[1..];
      }
    }
  }

  /** A cut of a spelling cuts the bytes it spells. */
  lemma {:induction false} SpellingCuts(bytes: seq<byte>, a: string, b: string)
    requires Gpt2Spelling(bytes) == a + b
    ensures |a| <= |bytes| && a == Gpt2Spelling(bytes[..|a|]) && b == Gpt2Spelling(bytes[|a|..])
    decreases |a|
  {
    if a == "" {
      assert bytes[0..] == bytes;
    } else {
      assert Gpt2Spelling(bytes)[1..] == a[1..] + b;
      SpellingCuts(bytes[1..], a[1..], b);
      assert bytes[..|a|][0] == bytes[0] && bytes[..|a|][1..] == bytes[1..][..|a| - 1];
      assert bytes[1..][|a| - 1..] == bytes[|a|..];
    }
  }

  lemma {:induction false} SpellingLength(bytes: seq<byte>)
    ensures |Gpt2Spelling(bytes)| == |bytes|
  {
    if bytes != [] {
      SpellingLength(bytes[1..]);
    }
  }

  lemma {:induction false} SpellingAt(bytes: seq<byte>, i: nat)
    requires i < |Gpt2Spelling(bytes)|
    ensures i < |bytes| && Gpt2Spelling(bytes)[i] == ByteToUnicode(bytes[i])
  {
    if i > 0 {
      SpellingAt(bytes[1..], i - 1);
    }
  }

  // ---------------------------------------------------------------------------------------------
  // What one pushed id contributes
  // ---------------------------------------------------------------------------------------------

  function HexDigit(c: char): Option<nat> {
    if '0' <= c <= '9' then Some(c as int - '0' as int)
    else if 'a' <= c <= 'f' then Some(c as int - 'a' as int + 10)
    else if 'A' <= c <= 'F' then Some(c as int - 'A' as int + 10)
    else None
  }

  function HexDigits(s: string, acc: nat): Option<byte> {
    if s == "" then (if acc < 256 then Some(acc) else None)
    else
      match HexDigit(s[0])
      case None => None
      case Some(d) => HexDigits(s[1..], acc * 16 + d)
  }

  /** `u8::from_str_radix(s, 16)`, which also accepts a leading plus sign. */
  function HexByte(s: string): Option<byte> {
    var digits := if |s| > 1 && s[0] == '+' then s[1..] else s;
    if digits == "" then None else HexDigits(digits, 0)
  }

  /** The `<0xHH>` form: six bytes in all, with two between the brackets to be read as hexadecimal. */
  function ByteForm(token: string): Option<byte> {
    if "<0x" <= token && token[|token| - 1] == '>' && |EncodeAll(token)| == 6
    then HexByte(token[3..|token| - 1])
    else None
  }

  const LOWER_DIGITS: string := "0123456789abcdef"
  const UPPER_DIGITS: string := "0123456789ABCDEF"

  /** The digit that stands for a number below sixteen, in either case. */
  function DigitOf(d: nat, upper: bool): char
    requires d < 16
  {
    if upper then UPPER_DIGITS[d] else LOWER_DIGITS[d]
  }

  /** A byte as two hexadecimal digits, the more significant first, each in either case. */
  function TwoDigits(b: byte, upperHigh: bool, upperLow: bool): string {
    [DigitOf(b / 16, upperHigh), DigitOf(b % 16, upperLow)]
  }

  /** How a token is written that stands for a byte; below sixteen a plus sign may replace the zero. */
  ghost predicate WritesByte(token: string, b: byte) {
    || (exists upperHigh, upperLow :: token == "<0x" + TwoDigits(b, upperHigh, upperLow) + ">")
    || (b < 16 && exists upper :: token == "<0x+" + [DigitOf(b, upper)] + ">")
  }

  lemma {:induction false} HexDigitInverse(c: char, d: nat)
    requires d < 16
    ensures HexDigit(c) == Some(d) <==> exists upper :: c == DigitOf(d, upper)
  {
    assert DigitOf(d, false) == if d < 10 then '0' + d as char else 'a' + (d - 10) as char;
    assert DigitOf(d, true) == if d < 10 then '0' + d as char else 'A' + (d - 10) as char;
    if HexDigit(c) == Some(d) {
      assert c == DigitOf(d, 'A' <= c <= 'F');
    }
  }

  /** A digit is below sixteen and takes one byte. */
  lemma {:induction false} HexDigitIsShort(c: char)
    requires HexDigit(c).Some?
    ensures HexDigit(c).value < 16 && c as int < 0x80
  {}

  lemma {:induction false} EncodedLength(token: string, c: char)
    ensures |EncodeAll([c])| == |Encode(c)| && |EncodeAll([c] + token)| == |Encode(c)| + |EncodeAll(token)|
  {
    assert [c][1..] == "" && ([c] + token)[1..] == token;
  }

  lemma {:induction false} LastHexDigit(y: char, acc: nat)
    requires acc < 16
    ensures HexDigits([y], acc) == if HexDigit(y).None? then None else Some(16 * acc + HexDigit(y).value)
  {
    assert [y][1..] == "";
    if HexDigit(y).Some? {
      HexDigitIsShort(y);
      assert HexDigits("", acc * 16 + HexDigit(y).value) == Some(16 * acc + HexDigit(y).value);
    }
  }

  /** Two characters, read as a number of two digits or of one after a plus sign. */
  lemma {:induction false} HexPair(x: char, y: char)
    ensures HexByte([x, y]) ==
      if HexDigit(y).None? then None
      else if x == '+' then Some(HexDigit(y).value)
      else if HexDigit(x).None? then None
      else Some(16 * HexDigit(x).value + HexDigit(y).value)
  {
    assert [x, y][1..] == [y];
    LastHexDigit(y, 0);
    if HexDigit(x).Some? {
      HexDigitIsShort(x);
      LastHexDigit(y, HexDigit(x).value);
    }
  }

  /** What stands between the brackets of a six-byte token, when it can be read at all. */
  lemma {:induction false} BetweenBrackets(token: string)
    requires "<0x" <= token && token[|token| - 1] == '>'
    ensures |token| >= 4 && token == "<0x" + token[3..|token| - 1] + ">"
    ensures |EncodeAll(token)| == 4 + |EncodeAll(token[3..|token| - 1])|
  {
    var inner := token[3..|token| - 1];
    assert token[..3] == "<0x";
    assert |token| > 3 by {
      assert token[2] == 'x';
    }
    assert token == "<0x" + inner + ">";
    EncodeAllAppend("<0x" + inner, ">");
    EncodeAllAppend("<0x", inner);
    assert EncodeAll("<0x") == [0x3C, 0x30, 0x78] by {
      assert "<0x"[1..] == "0x" && "0x"[1..] == "x" && "x"[1..] == "";
    }
    assert EncodeAll(">") == [0x3E] by {
      assert ">"[1..] == "";
    }
  }

  lemma {:induction false} TwoHexDigits(x: char, y: char, b: byte)
    ensures HexDigit(x) == Some(b / 16) && HexDigit(y) == Some(b % 16)
      <==> exists upperHigh, upperLow :: [x, y] == TwoDigits(b, upperHigh, upperLow)
  {
    hide HexDigit, DigitOf;
    HexDigitInverse(x, b / 16);
    HexDigitInverse(y, b % 16);
    if HexDigit(x) == Some(b / 16) && HexDigit(y) == Some(b % 16) {
      var upperHigh :| x == DigitOf(b / 16, upperHigh);
      var upperLow :| y == DigitOf(b % 16, upperLow);
      assert [x, y] == TwoDigits(b, upperHigh, upperLow);
    }
    forall upperHigh, upperLow | [x, y] == TwoDigits(b, upperHigh, upperLow)
      ensures x == DigitOf(b / 16, upperHigh) && y == DigitOf(b % 16, upperLow)
    {
      assert [x, y][0] == x && [x, y][1] == y;
    }
  }

  lemma {:induction false} PlusAndDigit(x: char, y: char, b: byte)
    ensures x == '+' && HexDigit(y) == Some(b) && b < 16 <==> b < 16 && exists upper :: [x, y] == ['+', DigitOf(b, upper)]
  {
    hide HexDigit, DigitOf;
    if b < 16 {
      HexDigitInverse(y, b);
      forall upper | [x, y] == ['+', DigitOf(b, upper)] ensures x == '+' && y == DigitOf(b, upper) {
        assert [x, y][0] == x && [x, y][1] == y;
      }
      if x == '+' && HexDigit(y) == Some(b) {
        var upper :| y == DigitOf(b, upper);
        assert [x, y] == ['+', DigitOf(b, upper)];
      }
    }
  }

  /** Two characters of one byte each are two hexadecimal digits, or a plus sign and one. */
  lemma {:induction false} HexPairWrites(inner: string, b: byte)
    ensures |EncodeAll(inner)| == 2 && HexByte(inner) == Some(b)
      <==> (exists upperHigh, upperLow :: inner == TwoDigits(b, upperHigh, upperLow))
           || (b < 16 && exists upper :: inner == ['+', DigitOf(b, upper)])
  {
    hide DigitOf, HexByte, HexDigits;
    if |inner| == 2 {
      var x, y := inner[0], inner[1];
      assert inner == [x, y] && inner == [x] + [y];
      HexPair(x, y);
      EncodedLength([y], x);
      EncodedLength("", y);
      TwoHexDigits(x, y, b);
      PlusAndDigit(x, y, b);
      if HexDigit(x).Some? {
        HexDigitIsShort(x);
      }
      if HexDigit(y).Some? {
        HexDigitIsShort(y);
      }
    } else if |inner| == 1 {
      SingleHexDigit(inner);
    }
  }

  lemma {:induction false} SingleHexDigit(inner: string)
    requires |inner| == 1
    ensures HexByte(inner).Some? ==> |EncodeAll(inner)| == 1
  {
    assert inner == [inner[0]];
    EncodedLength("", inner[0]);
    if HexDigit(inner[0]).Some? {
      HexDigitIsShort(inner[0]);
    }
  }

  /** Read as a byte are exactly the tokens that write it. */
  lemma {:induction false} ByteFormExactly(token: string, b: byte)
    ensures ByteForm(token) == Some(b) <==> WritesByte(token, b)
  {
    hide HexByte, TwoDigits, DigitOf, EncodeAll;
    if "<0x" <= token && token[|token| - 1] == '>' {
      BetweenBrackets(token);
      var inner := token[3..|token| - 1];
      HexPairWrites(inner, b);
      forall upperHigh, upperLow
        ensures token == "<0x" + TwoDigits(b, upperHigh, upperLow) + ">" <==> inner == TwoDigits(b, upperHigh, upperLow)
      {
      }
    }
  }

  datatype Piece =
    | Silent
    | Bytes(bytes: seq<byte>)
    | Text(text: string)

  predicate UsesGpt2Bytes(t: Tokenizer) {
    t.model == "gpt2" || t.model == "qwen2"
  }

  function TypeOf(t: Tokenizer, id: nat): Option<TokenType> {
    if id < |t.tokenTypes| then Some(t.tokenTypes[id]) else None
  }

  /** Which of the decoder's branches an id takes, and with what. */
  function PieceOf(t: Tokenizer, id: nat): Piece {
    if (Some(id) == t.bosId || Some(id) == t.eosId) && TypeOf(t, id) == Some(Control) then Silent
    else if id >= |t.tokens| then Silent
    else
      var token := t.tokens[id];
      if ByteForm(token).Some? then Bytes([ByteForm(token).value])
      else if TypeOf(t, id) == Some(Byte) && |EncodeAll(token)| == 1 then Bytes(EncodeAll(token))
      else if UsesGpt2Bytes(t) && Gpt2TokenBytes(token).Some? then Bytes(Gpt2TokenBytes(token).value)
      else Text(Normalize(token))
  }

  // ---------------------------------------------------------------------------------------------
  // The branches, told apart by what the token is
  // ---------------------------------------------------------------------------------------------

  /** Ids of no token are passed over, and so are BOS and EOS when they are control tokens. */
  predicate Skipped(t: Tokenizer, id: nat) {
    || |t.tokens| <= id
    || (id < |t.tokenTypes| && t.tokenTypes[id] == Control && (t.bosId == Some(id) || t.eosId == Some(id)))
  }

  ghost predicate WritesSomeByte(token: string) {
    exists b: byte :: WritesByte(token, b)
  }

  /** A token of type byte that is one ASCII character. */
  predicate IsByteCharacter(t: Tokenizer, id: nat)
    requires id < |t.tokens|
  {
    && id < |t.tokenTypes| && t.tokenTypes[id] == Byte
    && |t.tokens[id]| == 1 && t.tokens[id][0] as int < 0x80
  }

  ghost predicate SpellsBytes(token: string) {
    exists bytes :: token == Gpt2Spelling(bytes)
  }

  /** What an id contributes follows from the shape of its token alone, in this order of precedence. */
  lemma {:induction false} PieceOfExactly(t: Tokenizer, id: nat)
    ensures PieceOf(t, id) == Silent <==> Skipped(t, id)
    ensures !Skipped(t, id) ==>
      var token := t.tokens[id];
      && (forall b: byte :: WritesByte(token, b) ==> PieceOf(t, id) == Bytes([b]))
      && (!WritesSomeByte(token) ==>
        if IsByteCharacter(t, id) then
          PieceOf(t, id) == Bytes([token[0] as int])
        else if t.model in {"gpt2", "qwen2"} && SpellsBytes(token) then
          exists bytes :: token == Gpt2Spelling(bytes) && PieceOf(t, id) == Bytes(bytes)
        else
          PieceOf(t, id) == Text(Normalize(token)))
  {
    hide ByteForm, WritesByte, Gpt2TokenBytes, Gpt2Spelling, EncodeAll;
    if !Skipped(t, id) {
      var token := t.tokens[id];
      forall b: byte ensures ByteForm(token) == Some(b) <==> WritesByte(token, b) {
        ByteFormExactly(token, b);
      }
      forall bytes ensures Gpt2TokenBytes(token) == Some(bytes) <==> token == Gpt2Spelling(bytes) {
        Gpt2TokenInverse(token, bytes);
      }
      EncodedInOneByte(token);
      if ByteForm(token).Some? {
        assert WritesByte(token, ByteForm(token).value);
      }
    }
  }

  lemma {:induction false} EncodedInOneByte(token: string)
    ensures |EncodeAll(token)| == 1 <==> |token| == 1 && token[0] as int < 0x80
    ensures |EncodeAll(token)| == 1 ==> EncodeAll(token) == [token[0] as int]
  {
    if |token| == 1 {
      assert token == [token[0]];
      EncodedLength("", token[0]);
      assert token[1..] == "" && Encode(token[0]) + [] == Encode(token[0]);
    }
  }

  // ---------------------------------------------------------------------------------------------
  // The table of byte tokens
  // ---------------------------------------------------------------------------------------------

  /** The last of the first `n` tokens that write `b`. */
  ghost predicate LastWriter(tokens: seq<string>, n: nat, b: byte, i: nat) {
    i < n <= |tokens| && WritesByte(tokens[i], b) && forall j :: i < j < n ==> !WritesByte(tokens[j], b)
  }

  ghost predicate SomeWrites(tokens: seq<string>, n: nat, b: byte) {
    exists i :: LastWriter(tokens, n, b, i)
  }

  /** The character of an ASCII byte is among the first `n` tokens, and its token is of type byte. */
  predicate TypedCharacter(tokens: seq<string>, tokenTypes: seq<TokenType>, index: map<string, nat>, n: nat, b: byte)
    requires n <= |tokens|
  {
    && b < 0x80 && [b as char] in tokens[..n] && [b as char] in index
    && index[[b as char]] < |tokenTypes| && tokenTypes[index[[b as char]]] == Byte
  }

  /** Every byte has the last token that writes it, or else its character's token if that is of type byte. */
  ghost predicate IndexesByte(table: map<byte, nat>, tokens: seq<string>, tokenTypes: seq<TokenType>, index: map<string, nat>,
                              n: nat, b: byte)
    requires n <= |tokens|
  {
    if SomeWrites(tokens, n, b) then b in table && LastWriter(tokens, n, b, table[b])
    else if TypedCharacter(tokens, tokenTypes, index, n, b) then b in table && table[b] == index[[b as char]]
    else b !in table
  }

  ghost predicate IndexesBytes(table: map<byte, nat>, tokens: seq<string>, tokenTypes: seq<TokenType>, index: map<string, nat>,
                               n: nat)
    requires n <= |tokens|
  {
    forall b: byte :: IndexesByte(table, tokens, tokenTypes, index, n, b)
  }

  lemma {:induction false} NextWriter(tokens: seq<string>, n: nat, b: byte)
    requires n < |tokens|
    ensures WritesByte(tokens[n], b) ==> LastWriter(tokens, n + 1, b, n) && SomeWrites(tokens, n + 1, b)
    ensures !WritesByte(tokens[n], b) ==> SomeWrites(tokens, n + 1, b) == SomeWrites(tokens, n, b)
    ensures !WritesByte(tokens[n], b) ==> forall i :: LastWriter(tokens, n + 1, b, i) <==> LastWriter(tokens, n, b, i)
  {
    hide WritesByte;
    assert WritesByte(tokens[n], b) ==> LastWriter(tokens, n + 1, b, n);
    if !WritesByte(tokens[n], b) {
      forall i ensures LastWriter(tokens, n + 1, b, i) <==> LastWriter(tokens, n, b, i) {
      }
      if SomeWrites(tokens, n + 1, b) {
        var i :| LastWriter(tokens, n + 1, b, i);
        assert LastWriter(tokens, n, b, i);
      }
      if SomeWrites(tokens, n, b) {
        var i :| LastWriter(tokens, n, b, i);
        assert LastWriter(tokens, n + 1, b, i);
      }
    }
  }

  lemma {:induction false} NextCharacter(tokens: seq<string>, tokenTypes: seq<TokenType>, index: map<string, nat>, n: nat, b: byte)
    requires n < |tokens|
    ensures TypedCharacter(tokens, tokenTypes, index, n + 1, b)
      <==> TypedCharacter(tokens, tokenTypes, index, n, b)
           || (b < 0x80 && tokens[n] == [b as char] && TypedCharacter(tokens, tokenTypes, index, |tokens|, b))
  {
    assert tokens[..n + 1] == tokens[..n] + [tokens[n]];
    assert tokens[n] in tokens;
    if b < 0x80 && tokens[n] == [b as char] {
      assert [b as char] in tokens[..n + 1];
    }
    if TypedCharacter(tokens, tokenTypes, index, n + 1, b) {
      assert [b as char] in tokens[..|tokens|];
    }
  }

  /** What one more token adds to the table. */
  lemma {:induction false} TableGrows(table: map<byte, nat>, more: map<byte, nat>, tokens: seq<string>,
                                      tokenTypes: seq<TokenType>, index: map<string, nat>, n: nat)
    requires n < |tokens| && IndexesBytes(table, tokens, tokenTypes, index, n)
    requires
      if ByteForm(tokens[n]).Some? then more == table[ByteForm(tokens[n]).value := n]
      else
        && more.Keys >= table.Keys && (forall b :: b in table ==> more[b] == table[b])
        && forall b: byte :: b !in table ==>
          (b in more <==> b < 0x80 && tokens[n] == [b as char] && TypedCharacter(tokens, tokenTypes, index, |tokens|, b))
          && (b in more ==> more[b] == index[[b as char]])
    ensures IndexesBytes(more, tokens, tokenTypes, index, n + 1)
  {
    hide WritesByte, ByteForm, LastWriter, TypedCharacter, SomeWrites;
    var m := n + 1;
    forall b: byte ensures IndexesByte(more, tokens, tokenTypes, index, m, b) {
      ByteFormExactly(tokens[n], b);
      NotOneByte(tokens[n]);
      NextWriter(tokens, n, b);
      NextCharacter(tokens, tokenTypes, index, n, b);
      assert IndexesByte(table, tokens, tokenTypes, index, n, b);
    }
  }

  method IndexByteTokens(tokens: seq<string>, tokenTypes: seq<TokenType>, index: map<string, nat>) returns (table: map<byte, nat>)
    requires Indexes(index, tokens, |tokens|)
    ensures IndexesBytes(table, tokens, tokenTypes, index, |tokens|)
  {
    table := map[];
    for i := 0 to |tokens|
      invariant IndexesBytes(table, tokens, tokenTypes, index, i)
    {
      var token := tokens[i];
      ghost var before := table;
      if "<0x" <= token && token[|token| - 1] == '>' && |EncodeAll(token)| == 6 {
        match HexByte(token[3..|token| - 1]) {
          case Some(b) => table := table[b := i];
          case None => NotOneByte(token);
        }
      } else if |EncodeAll(token)| == 1 {
        EncodedInOneByte(token);
        assert token == [token[0]];
        if token in index && index[token] < |tokenTypes| && tokenTypes[index[token]] == Byte {
          var first := EncodeAll(token)[0];
          if first !in table {
            table := table[first := index[token]];
          }
        }
      } else {
        EncodedInOneByte(token);
      }
      TableGrows(before, table, tokens, tokenTypes, index, i);
    }
  }

  lemma {:induction false} NotOneByte(token: string)
    ensures "<0x" <= token || ByteForm(token).Some? ==> forall c: char :: token != [c]
  {}

  // ---------------------------------------------------------------------------------------------
  // What normalizing and trimming do
  // ---------------------------------------------------------------------------------------------

  /** Character by character: U+2581 and U+0120 become spaces, the rest stays. */
  lemma {:induction false} NormalizeAt(text: string, i: nat)
    requires i < |text|
    ensures Normalize(text)[i] == if text[i] in {'\U{2581}', '\U{0120}'} then ' ' else text[i]
  {
    if i > 0 {
      NormalizeAt(text[1..], i - 1);
    }
  }

  /** Exactly the leading whitespace goes. */
  lemma {:induction false} TrimStartExactly(text: string, n: nat)
    requires n <= |text| && forall i :: 0 <= i < n ==> IsWhitespace(text[i])
    requires n < |text| ==> !IsWhitespace(text[n])
    ensures TrimStart(text) == text[n..]
  {
    if n > 0 {
      TrimStartExactly(text[1..], n - 1);
      assert text[1..][n - 1..] == text[n..];
    }
  }
}
