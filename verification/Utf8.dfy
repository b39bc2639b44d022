/**
 * UTF-8 as `str::from_utf8` and `String::from_utf8_lossy` read it: a scanner of one sequence,
 * tied to the encoder of RFC 3629 section 3, and the batch and incremental decoders built on it.
 */
module Utf8 {
  import opened Prelude

  const REPLACEMENT: char := '\U{FFFD}'

  // ---------------------------------------------------------------------------------------------
  // The encoder (RFC 3629 section 3): the independent definition of a well-formed sequence
  // ---------------------------------------------------------------------------------------------

  function Encode(c: char): (bytes: seq<byte>)
    ensures 1 <= |bytes| <= 4
  {
    var cp := c as int;
    if cp < 0x80 then
      [cp]
    else if cp < 0x800 then
      [0xC0 + cp / 0x40, 0x80 + cp % 0x40]
    else if cp < 0x1_0000 then
      [0xE0 + cp / 0x1000, 0x80 + cp / 0x40 % 0x40, 0x80 + cp % 0x40]
    else
      [0xF0 + cp / 0x4_0000, 0x80 + cp / 0x1000 % 0x40, 0x80 + cp / 0x40 % 0x40, 0x80 + cp % 0x40]
  }

  function EncodeAll(text: string): (bytes: seq<byte>)
    ensures |text| <= |bytes|
  {
    if text == "" then [] else Encode(text[0]) + EncodeAll(text[1..])
  }

  lemma {:induction false} EncodeAllAppend(a: string, b: string)
    ensures EncodeAll(a + b) == EncodeAll(a) + EncodeAll(b)
  {
    if a == "" {
      assert a + b == b;
    } else {
      assert (a + b)[1..] == a[1..] + b;
      EncodeAllAppend(a[1..], b);
    }
  }

  /** `p` starts, or is, the encoding of some character. */
  ghost predicate Begins(p: seq<byte>) {
    exists c: char :: p <= Encode(c)
  }

  // ---------------------------------------------------------------------------------------------
  // The scanner: what the standard library says about the first sequence of a byte string
  // ---------------------------------------------------------------------------------------------

  /**
   * `Valid(n)`: the first `n` bytes are one character. `Invalid(n)`: the first `n` bytes are to be
   * replaced (`error_len() == Some(n)`). `Incomplete`: the input ends inside a character
   * (`error_len() == None`).
   */
  datatype Verdict = Valid(n: nat) | Invalid(n: nat) | Incomplete

  function Width(lead: byte): nat {
    if lead < 0x80 then 1
    else if 0xC2 <= lead <= 0xDF then 2
    else if 0xE0 <= lead <= 0xEF then 3
    else if 0xF0 <= lead <= 0xF4 then 4
    else 0
  }

  predicate Continuation(b: byte) {
    0x80 <= b <= 0xBF
  }

  /** The second byte excludes overlong forms, surrogates and code points above U+10FFFF. */
  predicate Second(lead: byte, b: byte) {
    if lead == 0xE0 then 0xA0 <= b <= 0xBF
    else if lead == 0xED then 0x80 <= b <= 0x9F
    else if lead == 0xF0 then 0x90 <= b <= 0xBF
    else if lead == 0xF4 then 0x80 <= b <= 0x8F
    else Continuation(b)
  }

  function Scan(s: seq<byte>): (verdict: Verdict)
    requires s != []
    ensures !verdict.Incomplete? ==> 1 <= verdict.n <= |s|
  {
    var width := Width(s[0]);
    if width == 0 then Invalid(1)
    else if width == 1 then Valid(1)
    else if |s| == 1 then Incomplete
    else if !Second(s[0], s[1]) then Invalid(1)
    else if width == 2 then Valid(2)
    else if |s| == 2 then Incomplete
    else if !Continuation(s[2]) then Invalid(2)
    else if width == 3 then Valid(3)
    else if |s| == 3 then Incomplete
    else if !Continuation(s[3]) then Invalid(3)
    else Valid(4)
  }

  /** The code point the bytes of one sequence stand for: the payload bits, most significant first. */
  function CodePoint(s: seq<byte>): (cp: int)
    requires s != [] && Scan(s).Valid?
  {
    var n := Scan(s).n;
    var b0: int := s[0];
    if n == 1 then
      b0
    else
      var b1: int := s[1] - 0x80;
      if n == 2 then
        (b0 - 0xC0) * 0x40 + b1
      else
        var b2: int := s[2] - 0x80;
        if n == 3 then
          (b0 - 0xE0) * 0x1000 + b1 * 0x40 + b2
        else
          var b3: int := s[3] - 0x80;
          (b0 - 0xF0) * 0x4_0000 + b1 * 0x1000 + b2 * 0x40 + b3
  }

  /** The character a valid scan found. */
  function CharAt(s: seq<byte>): char
    requires s != [] && Scan(s).Valid?
  {
    CodePoint(s) as char
  }

  lemma {:induction false} Payload(cp: int, w: int, x: int, y: int, z: int)
    requires 0 <= w && 0 <= x < 0x40 && 0 <= y < 0x40 && 0 <= z < 0x40
    requires cp == w * 0x4_0000 + x * 0x1000 + y * 0x40 + z
    ensures cp % 0x40 == z && cp / 0x40 % 0x40 == y && cp / 0x1000 % 0x40 == x
    ensures cp / 0x4_0000 == w && cp / 0x1000 == w * 0x40 + x && cp / 0x40 == w * 0x1000 + x * 0x40 + y
  {}

  /** The character found is the one whose encoding was scanned. */
  lemma {:induction false} EncodeCharAt(s: seq<byte>)
    requires s != [] && Scan(s).Valid?
    ensures Encode(CharAt(s)) == s[..Scan(s).n]
  {
    var n := Scan(s).n;
    var cp := CodePoint(s);
    if n == 2 {
      Payload(cp, 0, 0, s[0] - 0xC0, s[1] - 0x80);
    } else if n == 3 {
      Payload(cp, 0, s[0] - 0xE0, s[1] - 0x80, s[2] - 0x80);
    } else if n == 4 {
      Payload(cp, s[0] - 0xF0, s[1] - 0x80, s[2] - 0x80, s[3] - 0x80);
    }
  }

  /** Base-64 digits are unique, so the payload bits determine the bytes. */
  lemma {:induction false} Digits(cp: int)
    requires 0 <= cp
    ensures cp == cp / 0x40 * 0x40 + cp % 0x40
    ensures cp == cp / 0x1000 * 0x1000 + cp / 0x40 % 0x40 * 0x40 + cp % 0x40
    ensures cp == cp / 0x4_0000 * 0x4_0000 + cp / 0x1000 % 0x40 * 0x1000 + cp / 0x40 % 0x40 * 0x40 + cp % 0x40
  {
    assert cp / 0x1000 == cp / 0x40 / 0x40;
    assert cp / 0x4_0000 == cp / 0x1000 / 0x40;
  }

  /** The scanner accepts every encoding, and reads back the character that was encoded. */
  lemma {:induction false} ScanOfEncoding(c: char, rest: seq<byte>)
    ensures Scan(Encode(c) + rest) == Valid(|Encode(c)|)
    ensures CharAt(Encode(c) + rest) == c
  {
    var s := Encode(c) + rest;
    var cp := c as int;
    Digits(cp);
    ScanEncoded(c, rest);
    assert CodePoint(s) == cp;
  }

  lemma {:induction false} ScanEncoded(c: char, rest: seq<byte>)
    ensures Scan(Encode(c) + rest) == Valid(|Encode(c)|)
  {
    var s := Encode(c) + rest;
    var cp := c as int;
    Digits(cp);
    assert s[0] == Encode(c)[0];
    if 0x80 <= cp {
      assert s[1] == Encode(c)[1];
      if 0x800 <= cp {
        assert s[2] == Encode(c)[2];
        if 0x1_0000 <= cp {
          assert s[3] == Encode(c)[3];
        }
      }
    }
  }

  /** Bytes scanned to a verdict are not looked at again: more input cannot change it. */
  lemma {:induction false} ScanIsStable(a: seq<byte>, b: seq<byte>)
    requires a != [] && !Scan(a).Incomplete?
    ensures Scan(a + b) == Scan(a)
    ensures Scan(a).Valid? ==> CharAt(a + b) == CharAt(a)
  {}

  /** An incomplete input can be completed to one character. */
  lemma {:induction false} Completion(s: seq<byte>) returns (c: char)
    requires s != [] && Scan(s).Incomplete?
    ensures s < Encode(c)
  {
    var second := if s[0] == 0xE0 then 0xA0 else if s[0] == 0xF0 then 0x90 else 0x80;
    var padded := if |s| == 1 then s + [second, 0x80, 0x80] else s + [0x80, 0x80];
    assert padded[..|s|] == s;
    c := CharAt(padded);
    EncodeCharAt(padded);
    assert |s| < Scan(padded).n;
  }

  /** A proper, non-empty prefix of an encoding scans as incomplete. */
  lemma {:induction false} PrefixIsIncomplete(s: seq<byte>, c: char)
    requires s != [] && s < Encode(c)
    ensures Scan(s).Incomplete?
  {
    ScanOfEncoding(c, []);
    assert Encode(c) + [] == Encode(c);
    if !Scan(s).Incomplete? {
      assert Encode(c) == s + Encode(c)[|s|..];
      ScanIsStable(s, Encode(c)[|s|..]);
    }
  }

  lemma {:induction false} EncodingIsValid(s: seq<byte>, c: char)
    requires Encode(c) <= s
    ensures Scan(s) == Valid(|Encode(c)|)
  {
    ScanOfEncoding(c, s[|Encode(c)|..]);
    assert s == Encode(c) + s[|Encode(c)|..];
  }

  /**
   * The scanner against the encoder. A valid scan is exactly an input that starts with one
   * character's encoding; an incomplete scan is exactly a proper prefix of one; and an invalid
   * scan names the maximal subpart of section 3.9 of the Unicode Standard: the longest start of
   * the input that begins a character, or a single byte when none does.
   */
  lemma {:induction false} ScanIsMaximalSubpart(s: seq<byte>)
    requires s != []
    ensures Scan(s).Valid? <==> exists c: char :: Encode(c) <= s
    ensures Scan(s).Incomplete? <==> exists c: char :: s < Encode(c)
    ensures Scan(s).Invalid? ==> Scan(s).n == 1 || Begins(s[..Scan(s).n])
    ensures Scan(s).Invalid? ==> forall m :: Scan(s).n < m <= |s| ==> !Begins(s[..m])
  {
    match Scan(s)
    case Valid(n) =>
      EncodeCharAt(s);
      assert Encode(CharAt(s)) <= s;
    case Incomplete =>
      var c := Completion(s);
    case Invalid(n) =>
      if n > 1 {
        var c := Completion(s[..n]);
        assert Begins(s[..n]);
      }
    if c: char :| Encode(c) <= s {
      EncodingIsValid(s, c);
    }
    if c: char :| s < Encode(c) {
      PrefixIsIncomplete(s, c);
    }
    forall m | Scan(s).Invalid? && Scan(s).n < m <= |s| ensures !Begins(s[..m]) {
      InvalidBeginsNothing(s, m);
    }
  }

  lemma {:induction false} BeginsScan(s: seq<byte>, c: char)
    requires s != []
    ensures s <= Encode(c) ==> !Scan(s).Invalid?
  {
    if s < Encode(c) {
      PrefixIsIncomplete(s, c);
    } else if s == Encode(c) {
      EncodingIsValid(s, c);
    }
  }

  lemma {:induction false} InvalidBeginsNothing(s: seq<byte>, m: nat)
    requires s != [] && Scan(s).Invalid? && Scan(s).n < m <= |s|
    ensures !Begins(s[..m])
  {
    assert Scan(s[..m]).Invalid?;
    forall c: char ensures !(s[..m] <= Encode(c)) {
      BeginsScan(s[..m], c);
    }
  }

  // ---------------------------------------------------------------------------------------------
  // `str::from_utf8`
  // ---------------------------------------------------------------------------------------------

  datatype Utf8Error = Utf8Error(validUpTo: nat, errorLen: Option<nat>)

  function FromUtf8(s: seq<byte>): (r: Result<string, Utf8Error>)
    ensures r.Err? ==> r.error.validUpTo <= |s|
    ensures r.Err? && r.error.errorLen.Some? ==> 1 <= r.error.errorLen.value <= |s| - r.error.validUpTo
  {
    if s == [] then Ok("")
    else
      match Scan(s)
      case Invalid(n) => Err(Utf8Error(0, Some(n)))
      case Incomplete => Err(Utf8Error(0, None))
      case Valid(n) =>
        match FromUtf8(s[n..])
        case Ok(text) => Ok([CharAt(s)] + text)
        case Err(e) => Err(Utf8Error(n + e.validUpTo, e.errorLen))
  }

  lemma {:induction false} FromUtf8OfEncoding(text: string)
    ensures FromUtf8(EncodeAll(text)) == Ok(text)
  {
    hide Scan, Encode, CharAt;
    if text != "" {
      var rest := EncodeAll(text[1..]);
      ScanOfEncoding(text[0], rest);
      assert EncodeAll(text) == Encode(text[0]) + rest;
      assert EncodeAll(text)[|Encode(text[0])|..] == rest;
      FromUtf8OfEncoding(text[1..]);
      assert [text[0]] + text[1..] == text;
    }
  }

  lemma {:induction false} EncodingOfFromUtf8(s: seq<byte>)
    requires FromUtf8(s).Ok?
    ensures EncodeAll(FromUtf8(s).value) == s
  {
    hide Encode, CharAt;
    if s != [] {
      var k := Scan(s).n;
      var tail := FromUtf8(s[k..]).value;
      EncodeCharAt(s);
      EncodingOfFromUtf8(s[k..]);
      assert ([CharAt(s)] + tail)[1..] == tail;
      assert s == s[..k] + s[k..];
    }
  }

  /** `from_utf8` succeeds on exactly the encodings, and returns the text that was encoded. */
  lemma {:induction false} FromUtf8Inverts(s: seq<byte>, text: string)
    ensures FromUtf8(s) == Ok(text) <==> s == EncodeAll(text)
  {
    FromUtf8OfEncoding(text);
    if FromUtf8(s).Ok? {
      EncodingOfFromUtf8(s);
    }
  }

  // ---------------------------------------------------------------------------------------------
  // Batch decoding (`from_utf8_lossy`) and draining what is complete
  // ---------------------------------------------------------------------------------------------

  /** Every character decoded, every maximal subpart replaced. */
  function Lossy(s: seq<byte>): string
    decreases |s|
  {
    if s == [] then ""
    else
      match Scan(s)
      case Valid(n) => [CharAt(s)] + Lossy(s[n..])
      case Invalid(n) => [REPLACEMENT] + Lossy(s[n..])
      case Incomplete => [REPLACEMENT]
  }

  /** The text decided by `s` whatever follows it, and the undecided bytes at its end. */
  datatype Drained = Drained(text: string, rest: seq<byte>)

  function Drain(s: seq<byte>): (d: Drained)
    ensures |d.rest| <= |s|
    decreases |s|
  {
    if s == [] then Drained("", [])
    else
      match Scan(s)
      case Incomplete => Drained("", s)
      case Valid(n) => var d := Drain(s[n..]); Drained([CharAt(s)] + d.text, d.rest)
      case Invalid(n) => var d := Drain(s[n..]); Drained([REPLACEMENT] + d.text, d.rest)
  }

  /** What is held back is empty or a proper prefix of one well-formed sequence. */
  ghost predicate Pending(s: seq<byte>) {
    s == [] || exists c: char :: s < Encode(c)
  }

  lemma {:induction false} DrainLeavesPending(s: seq<byte>)
    ensures Pending(Drain(s).rest)
    ensures Drain(s).rest == [] || Scan(Drain(s).rest).Incomplete?
    decreases |s|
  {
    if s != [] {
      match Scan(s)
      case Incomplete =>
        var c := Completion(s);
      case Valid(n) =>
        DrainLeavesPending(s[n..]);
      case Invalid(n) =>
        DrainLeavesPending(s[n..]);
    }
  }

  /** Draining early loses nothing: the decided text, then the batch decoding of the rest. */
  lemma {:induction false} DrainThenLossy(a: seq<byte>, b: seq<byte>)
    ensures Lossy(a + b) == Drain(a).text + Lossy(Drain(a).rest + b)
    decreases |a|
  {
    if a == [] {
      assert a + b == b;
    } else if !Scan(a).Incomplete? {
      ScanIsStable(a, b);
      var n := Scan(a).n;
      assert (a + b)[n..] == a[n..] + b;
      DrainThenLossy(a[n..], b);
    }
  }

  /** The first `n` bytes are the longest start of `s` that begins a character, or one byte when none does. */
  ghost predicate MaximalSubpart(s: seq<byte>, n: nat) {
    && 1 <= n <= |s| && (n == 1 || Begins(s[..n]))
    && forall m :: n < m <= |s| ==> !Begins(s[..m])
  }

  /**
   * The replacement of section 3.9 of the Unicode Standard: while the input starts with a character's
   * encoding the character stands for it, and otherwise U+FFFD stands for the maximal subpart.
   */
  ghost predicate IsLossy(s: seq<byte>, text: string)
    decreases |s|
  {
    if s == [] then text == ""
    else if text == "" then false
    else if exists c: char :: Encode(c) <= s then
      Encode(text[0]) <= s && IsLossy(s[|Encode(text[0])|..], text[1..])
    else
      text[0] == '\U{FFFD}' && exists n: nat :: MaximalSubpart(s, n) && IsLossy(s[n..], text[1..])
  }

  lemma {:induction false} SubpartOfScan(s: seq<byte>, n: nat)
    requires s != [] && !Scan(s).Valid?
    ensures MaximalSubpart(s, n) <==> n == if Scan(s).Incomplete? then |s| else Scan(s).n
  {
    hide Scan, Encode;
    ScanIsMaximalSubpart(s);
    var k := if Scan(s).Incomplete? then |s| else Scan(s).n;
    if Scan(s).Incomplete? {
      var c: char :| s < Encode(c);
      assert s[..|s|] == s;
      assert Begins(s[..|s|]);
    }
    assert MaximalSubpart(s, k);
  }

  lemma {:induction false} CharacterOfScan(s: seq<byte>, c: char)
    requires s != []
    ensures Encode(c) <= s <==> Scan(s).Valid? && CharAt(s) == c
    ensures Scan(s).Valid? ==> Scan(s).n == |Encode(CharAt(s))|
  {
    hide Scan, Encode, CodePoint;
    if Scan(s).Valid? {
      EncodeCharAt(s);
    }
    if Encode(c) <= s {
      assert s == Encode(c) + s[|Encode(c)|..];
      ScanOfEncoding(c, s[|Encode(c)|..]);
    }
  }

  /** Batch decoding is that replacement, and nothing else is. */
  lemma {:induction false} LossyExactly(s: seq<byte>, text: string)
    ensures IsLossy(s, text) <==> text == Lossy(s)
    decreases |s|
  {
    hide Scan, Encode, CodePoint, MaximalSubpart;
    if s != [] && text != "" {
      assert text == [text[0]] + text[1..];
      CharacterOfScan(s, text[0]);
      if Scan(s).Valid? {
        CharacterOfScan(s, CharAt(s));
        LossyExactly(s[Scan(s).n..], text[1..]);
      } else {
        forall c: char ensures !(Encode(c) <= s) {
          CharacterOfScan(s, c);
        }
        var n := if Scan(s).Incomplete? then |s| else Scan(s).n;
        forall m: nat ensures MaximalSubpart(s, m) <==> m == n {
          SubpartOfScan(s, m);
        }
        LossyExactly(s[n..], text[1..]);
        assert Lossy(s) == [REPLACEMENT] + Lossy(s[n..]);
      }
    }
  }

  /** A well-formed text survives the batch decoder unchanged. */
  lemma {:induction false} LossyOfEncoding(text: string)
    ensures Lossy(EncodeAll(text)) == text
  {
    if text != "" {
      ScanOfEncoding(text[0], EncodeAll(text[1..]));
      assert EncodeAll(text)[|Encode(text[0])|..] == EncodeAll(text[1..]);
      LossyOfEncoding(text[1..]);
    }
  }

  lemma {:induction false} Slices<T>(s: seq<T>, n: nat, v: nat)
    requires n <= v <= |s|
    ensures s[..v][n..] == s[n..][..v - n]
    ensures s[v..] == s[n..][v - n..]
  {}

  /** Where `from_utf8` stops: the bytes before are valid, and the error is at the front of the rest. */
  lemma {:induction false} ValidPrefix(s: seq<byte>, v: nat)
    requires FromUtf8(s).Err? && v == FromUtf8(s).error.validUpTo
    ensures FromUtf8(s[..v]).Ok?
    ensures FromUtf8(s[v..]) == Err(Utf8Error(0, FromUtf8(s).error.errorLen))
  {
    if v == 0 {
      assert s[..0] == [] && s[0..] == s;
    } else {
      var n := Scan(s).n;
      Slices(s, n, v);
      ScanOfPrefix(s, v);
      ValidPrefix(s[n..], v - n);
    }
  }

  lemma {:induction false} ScanOfPrefix(s: seq<byte>, v: nat)
    requires s != [] && Scan(s).Valid? && Scan(s).n <= v <= |s|
    ensures s[..v] != [] && Scan(s[..v]) == Scan(s)
    ensures CharAt(s[..v]) == CharAt(s)
  {}

  lemma {:induction false} ValidStep(a: seq<byte>, b: seq<byte>)
    requires a != [] && Scan(a).Valid?
    ensures
      var rest := a[Scan(a).n..] + b;
      && Drain(a + b) == Drained([CharAt(a)] + Drain(rest).text, Drain(rest).rest)
      && Lossy(a + b) == [CharAt(a)] + Lossy(rest)
  {
    ScanIsStable(a, b);
    assert (a + b)[Scan(a).n..] == a[Scan(a).n..] + b;
  }

  lemma {:induction false} FromUtf8Step(a: seq<byte>, text: string)
    requires a != [] && FromUtf8(a) == Ok(text)
    ensures Scan(a).Valid? && text == [CharAt(a)] + text[1..]
    ensures FromUtf8(a[Scan(a).n..]) == Ok(text[1..])
  {
    var tail := FromUtf8(a[Scan(a).n..]).value;
    assert text == [CharAt(a)] + tail;
    assert text[1..] == tail;
  }

  /** A valid prefix contributes exactly its own text. */
  lemma {:induction false} ValidThen(a: seq<byte>, text: string, b: seq<byte>)
    requires FromUtf8(a) == Ok(text)
    ensures Lossy(a + b) == text + Lossy(b)
    ensures Drain(a + b) == Drained(text + Drain(b).text, Drain(b).rest)
  {
    if a == [] {
      assert a + b == b;
    } else {
      FromUtf8Step(a, text);
      ValidStep(a, b);
      ValidThen(a[Scan(a).n..], text[1..], b);
      Prepend([CharAt(a)], text[1..], Lossy(b));
      Prepend([CharAt(a)], text[1..], Drain(b).text);
    }
  }

  lemma {:induction false} Prepend<T>(a: seq<T>, b: seq<T>, c: seq<T>)
    ensures a + (b + c) == (a + b) + c
  {}
}
