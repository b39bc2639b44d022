/**
 * Names of shard files: a shard's path gives the prefix and count of its set, and prefix and count
 * give back the paths of all its shards.
 */
module ShardName {
  import opened Prelude

  // ---------------------------------------------------------------------------------------------
  // Numbers of at least five digits
  // ---------------------------------------------------------------------------------------------

  predicate IsDigit(c: char) {
    '0' <= c <= '9'
  }

  predicate AllDigits(s: string) {
    forall k :: 0 <= k < |s| ==> IsDigit(s[k])
  }

  function Digit(d: nat): (c: char)
    requires d < 10
    ensures IsDigit(c) && DigitValue(c) == d
  {
    '0' + d as char
  }

  function DigitValue(c: char): (d: nat)
    requires IsDigit(c)
    ensures d < 10
  {
    (c - '0') as nat
  }

  /** Decimal digits, with zeros in front up to `width` characters. */
  function Padded(n: nat, width: nat): string
    decreases n + width
  {
    if n < 10 && width <= 1 then [Digit(n)]
    else Padded(n / 10, if width == 0 then 0 else width - 1) + [Digit(n % 10)]
  }

  function Number(s: string): nat
    requires AllDigits(s)
  {
    if s == "" then 0 else Number(s[..|s| - 1]) * 10 + DigitValue(s[|s| - 1])
  }

  /** Reading an unsigned number: digits, after an optional plus sign. */
  function ParseNumber(s: string): Option<nat> {
    var digits := if |s| > 0 && s[0] == '+' then s[1..] else s;
    if digits != "" && AllDigits(digits) && Number(digits) <= 0xFFFF_FFFF then Some(Number(digits)) else None
  }

  function PowerOfTen(k: nat): nat {
    if k == 0 then 1 else 10 * PowerOfTen(k - 1)
  }

  /** The width is kept exactly as long as the number fits it. */
  lemma {:induction false} PaddedWidth(n: nat, width: nat)
    ensures |Padded(n, width)| >= width && |Padded(n, width)| >= 1
    ensures width >= 1 ==> (|Padded(n, width)| == width <==> n < PowerOfTen(width))
    decreases n + width
  {
    if n < 10 && width <= 1 {
      assert width == 1 ==> PowerOfTen(width) == 10 * PowerOfTen(0);
    } else {
      PaddedWidth(n / 10, if width == 0 then 0 else width - 1);
      if width == 1 {
        assert PowerOfTen(width) == 10 * PowerOfTen(0);
      }
    }
  }

  /** Padding does not change the number. */
  lemma {:induction false} NumberOfPadded(n: nat, width: nat)
    ensures AllDigits(Padded(n, width)) && Number(Padded(n, width)) == n
    decreases n + width
  {
    if n < 10 && width <= 1 {
      var s := [Digit(n)];
      assert s[..0] == "" && Number(s[..0]) == 0;
      assert Padded(n, width) == s && Number(s) == n;
    } else {
      var front := Padded(n / 10, if width == 0 then 0 else width - 1);
      NumberOfPadded(n / 10, if width == 0 then 0 else width - 1);
      var s := Padded(n, width);
      assert s == front + [Digit(n % 10)] && s[..|s| - 1] == front;
    }
  }

  /** Digits are the padded form of their own number. */
  lemma {:induction false} PaddedOfNumber(s: string)
    requires s != "" && AllDigits(s)
    ensures Padded(Number(s), |s|) == s
  {
    var front, last := s[..|s| - 1], DigitValue(s[|s| - 1]);
    var n := Number(s);
    assert n == Number(front) * 10 + last && n / 10 == Number(front) && n % 10 == last;
    assert s == front + [s[|s| - 1]] && Digit(last) == s[|s| - 1];
    if front == "" {
      assert Number(front) == 0;
    } else {
      PaddedOfNumber(front);
    }
  }

  lemma {:induction false} ParsePadded(n: nat, width: nat)
    requires n <= 0xFFFF_FFFF
    ensures ParseNumber(Padded(n, width)) == Some(n)
    ensures '-' !in Padded(n, width) && '+' !in Padded(n, width)
  {
    NumberOfPadded(n, width);
    PaddedWidth(n, width);
    assert IsDigit(Padded(n, width)[0]);
  }

  // ---------------------------------------------------------------------------------------------
  // File names
  // ---------------------------------------------------------------------------------------------

  const SUFFIX := ".gguf"

  /** Cuts at the last dash. */
  function CutLast(s: string): (r: Option<(string, string)>)
    ensures r.Some? ==> s == r.value.0 + "-" + r.value.1 && '-' !in r.value.1
    ensures r.None? ==> '-' !in s
  {
    if s == "" then None
    else if s[|s| - 1] == '-' then Some((s[..|s| - 1], ""))
    else
      match CutLast(s[..|s| - 1])
      case None => None
      case Some((front, back)) => Some((front, back + [s[|s| - 1]]))
  }

  lemma {:induction false} CutLastIsUnique(front: string, back: string)
    requires '-' !in back
    ensures CutLast(front + "-" + back) == Some((front, back))
  {
    var s := front + "-" + back;
    if back == "" {
      assert s == front + "-" && s[..|s| - 1] == front;
    } else {
      var rest := back[..|back| - 1];
      assert s[|s| - 1] == back[|back| - 1] && back[|back| - 1] in back;
      assert s[..|s| - 1] == front + "-" + rest && back == rest + [back[|back| - 1]];
      CutLastIsUnique(front, rest);
    }
  }

  datatype Parts = Parts(stem: string, index: string, of: string, count: string)

  /** The file name without its extension, cut at its last three dashes. */
  function CutName(file: string): Option<Parts> {
    if |file| < |SUFFIX| || file[|file| - |SUFFIX|..] != SUFFIX then None
    else
      match CutLast(file[..|file| - |SUFFIX|])
      case None => None
      case Some((beforeCount, count)) =>
        match CutLast(beforeCount)
        case None => None
        case Some((beforeOf, of)) =>
          match CutLast(beforeOf)
          case None => None
          case Some((stem, index)) => Some(Parts(stem, index, of, count))
  }

  function Joined(parts: Parts): string {
    parts.stem + "-" + parts.index + "-" + parts.of + "-" + parts.count + SUFFIX
  }

  predicate NoDashes(parts: Parts) {
    '-' !in parts.index && '-' !in parts.of && '-' !in parts.count
  }

  lemma {:induction false} CutNameOfJoined(parts: Parts)
    requires NoDashes(parts)
    ensures CutName(Joined(parts)) == Some(parts)
  {
    var beforeOf := parts.stem + "-" + parts.index;
    var beforeCount := beforeOf + "-" + parts.of;
    var name := beforeCount + "-" + parts.count;
    var file := Joined(parts);
    assert file == name + SUFFIX;
    assert file[..|file| - |SUFFIX|] == name && file[|file| - |SUFFIX|..] == SUFFIX;
    CutLastIsUnique(beforeCount, parts.count);
    CutLastIsUnique(beforeOf, parts.of);
    CutLastIsUnique(parts.stem, parts.index);
  }

  lemma {:induction false} JoinedOfCutName(file: string)
    requires CutName(file).Some?
    ensures NoDashes(CutName(file).value) && Joined(CutName(file).value) == file
  {
    var parts := CutName(file).value;
    var name := file[..|file| - |SUFFIX|];
    var beforeCount := CutLast(name).value.0;
    var beforeOf := CutLast(beforeCount).value.0;
    assert file == name + SUFFIX;
    assert name == beforeCount + "-" + parts.count;
    assert beforeCount == beforeOf + "-" + parts.of;
    assert beforeOf == parts.stem + "-" + parts.index;
  }

  /** The file name of one shard. */
  function FileNameOf(stem: string, index: nat, count: nat): string {
    Joined(Parts(stem, Padded(index, 5), "of", Padded(count, 5)))
  }

  datatype Named = Named(stem: string, index: nat, count: nat)

  /** What a shard's file name says, if it has the standard form. */
  function ReadFileName(file: string): Option<Named> {
    match CutName(file)
    case None => None
    case Some(parts) =>
      if parts.of != "of" || |parts.count| != 5 || |parts.index| != 5 then None
      else
        match (ParseNumber(parts.count), ParseNumber(parts.index))
        case (Some(count), Some(index)) =>
          if count == 0 || index == 0 || index > count then None else Some(Named(parts.stem, index, count))
        case (_, _) => None
  }

  /** Names written are read back exactly for proper indices of sets of at most 99999 shards. */
  lemma {:induction false} ReadWrittenName(stem: string, index: nat, count: nat)
    requires index <= 0xFFFF_FFFF && count <= 0xFFFF_FFFF
    ensures ReadFileName(FileNameOf(stem, index, count)) ==
            if 1 <= index <= count <= 99999 then Some(Named(stem, index, count)) else None
  {
    ParsePadded(index, 5);
    ParsePadded(count, 5);
    PaddedWidth(index, 5);
    PaddedWidth(count, 5);
    assert PowerOfTen(5) == 100000;
    assert '-' !in "of";
    CutNameOfJoined(Parts(stem, Padded(index, 5), "of", Padded(count, 5)));
  }

  /** Different shards of a set have different names. */
  lemma {:induction false} NamesDiffer(stem: string, index: nat, other: nat, count: nat)
    requires index <= 0xFFFF_FFFF && other <= 0xFFFF_FFFF && count <= 0xFFFF_FFFF
    requires FileNameOf(stem, index, count) == FileNameOf(stem, other, count)
    ensures index == other
  {
    ParsePadded(index, 5);
    ParsePadded(other, 5);
    ParsePadded(count, 5);
    assert '-' !in "of";
    CutNameOfJoined(Parts(stem, Padded(index, 5), "of", Padded(count, 5)));
    CutNameOfJoined(Parts(stem, Padded(other, 5), "of", Padded(count, 5)));
  }

  /** A plus sign takes the place of a digit when a number is read, but is never written. */
  ghost predicate Signed(file: string)
    requires CutName(file).Some?
  {
    '+' in CutName(file).value.index || '+' in CutName(file).value.count
  }

  lemma {:induction false} PaddedOfParsed(s: string)
    requires |s| == 5 && ParseNumber(s).Some?
    ensures '+' !in s ==> Padded(ParseNumber(s).value, 5) == s
  {
    if '+' !in s {
      assert s[0] in s;
      PaddedOfNumber(s);
    }
  }

  lemma {:induction false} FiveDigits(s: string)
    requires |s| == 5 && ParseNumber(s).Some?
    ensures ParseNumber(s).value <= 99999
  {
    if s[0] == '+' {
      PaddedOfNumber(s[1..]);
      PaddedWidth(Number(s[1..]), 4);
    } else {
      PaddedOfNumber(s);
      PaddedWidth(Number(s), 5);
    }
    assert PowerOfTen(4) == 10000 && PowerOfTen(5) == 100000;
  }

  /** A name read is the name written for what was read, exactly when it has no plus sign. */
  lemma {:induction false} WriteReadName(file: string, index: nat)
    requires ReadFileName(file).Some? && index <= 0xFFFF_FFFF
    ensures var named := ReadFileName(file).value;
            FileNameOf(named.stem, index, named.count) == file <==> index == named.index && !Signed(file)
  {
    var parts, named := CutName(file).value, ReadFileName(file).value;
    JoinedOfCutName(file);
    PaddedOfParsed(parts.index);
    PaddedOfParsed(parts.count);
    ParsePadded(index, 5);
    ParsePadded(named.count, 5);
    assert '-' !in "of";
    CutNameOfJoined(Parts(named.stem, Padded(index, 5), "of", Padded(named.count, 5)));
  }

  lemma {:induction false} NumberPush(s: string, c: char)
    requires AllDigits(s) && IsDigit(c)
    ensures AllDigits(s + [c]) && Number(s + [c]) == Number(s) * 10 + DigitValue(c) && Number("") == 0
  {
    assert (s + [c])[..|s|] == s;
  }

  lemma {:induction false} SomeNumbers()
    ensures ParseNumber("+0001") == Some(1) && ParseNumber("00002") == Some(2)
  {
    hide Number;
    NumberPush("", '0');
    NumberPush("0", '0');
    NumberPush("00", '0');
    NumberPush("000", '1');
    NumberPush("000", '0');
    NumberPush("0000", '2');
    assert "+0001"[1..] == "0001" && "000" + "1" == "0001" && "0000" + "2" == "00002";
    assert "" + "0" == "0" && "0" + "0" == "00" && "00" + "0" == "000" && "000" + "0" == "0000";
  }

  /** Such a name is accepted, but is not the name of any shard. */
  lemma {:induction false} SignedNameIsAccepted(stem: string, index: nat)
    requires index <= 0xFFFF_FFFF
    ensures ReadFileName(Joined(Parts(stem, "+0001", "of", "00002"))) == Some(Named(stem, 1, 2))
    ensures FileNameOf(stem, index, 2) != Joined(Parts(stem, "+0001", "of", "00002"))
  {
    hide CutName, Joined, ParseNumber;
    var parts := Parts(stem, "+0001", "of", "00002");
    CutNameOfJoined(parts);
    SomeNumbers();
    assert parts.index[0] == '+';
    WriteReadName(Joined(parts), index);
  }

  // ---------------------------------------------------------------------------------------------
  // Paths
  // ---------------------------------------------------------------------------------------------

  datatype Component = Root | Here | Up | Name(name: string)

  type Path = seq<Component>

  /** A component joined to a directory; `.` is dropped unless it stands alone. */
  function Join(dir: Path, name: string): Path {
    if name == "" then dir
    else if name == "." then (if dir == [] then [Here] else dir)
    else if name == ".." then dir + [Up]
    else dir + [Name(name)]
  }

  function FileName(path: Path): Option<string> {
    if path != [] && path[|path| - 1].Name? then Some(path[|path| - 1].name) else None
  }

  function Parent(path: Path): Option<Path> {
    if path == [] || path[|path| - 1].Root? then None else Some(path[..|path| - 1])
  }

  /** The prefix and count of the set a file in a directory belongs to. */
  function SplitPrefix(dir: Path, file: string): Option<(Path, nat)> {
    match ReadFileName(file)
    case None => None
    case Some(named) => Some((Join(dir, named.stem), named.count))
  }

  function ShardPath(prefix: Path, index: nat, count: nat): Path {
    var stem := if FileName(prefix).Some? then FileName(prefix).value else "model";
    var file := FileNameOf(stem, index, count);
    match Parent(prefix)
    case None => Join([], file)
    case Some(dir) => Join(dir, file)
  }

  /** Names that are not file names of their own. */
  predicate Anonymous(stem: string) {
    stem == "" || stem == "." || stem == ".."
  }

  lemma {:induction false} JoinFile(dir: Path, stem: string, index: nat, count: nat)
    ensures Join(dir, FileNameOf(stem, index, count)) == dir + [Name(FileNameOf(stem, index, count))]
  {
    var file := FileNameOf(stem, index, count);
    assert |file| >= |SUFFIX| == 5;
  }

  /** Every shard of a set of at most 99999 leads to the same prefix, and from it to every other shard. */
  lemma {:induction false} ShardsLeadToEachOther(dir: Path, stem: string, index: nat, other: nat, count: nat)
    requires !Anonymous(stem)
    requires 1 <= index <= count <= 0xFFFF_FFFF && 1 <= other <= count
    ensures SplitPrefix(dir, FileNameOf(stem, index, count)) ==
            if count <= 99999 then Some((dir + [Name(stem)], count)) else None
    ensures ShardPath(dir + [Name(stem)], other, count) == dir + [Name(FileNameOf(stem, other, count))]
  {
    ReadWrittenName(stem, index, count);
    JoinFile(dir, stem, other, count);
    assert Parent(dir + [Name(stem)]) == Some(dir);
  }

  /** A shard with a stem that is no file name is looked for in another directory, or as `model`. */
  lemma {:induction false} AnonymousLooksElsewhere(dir: Path, stem: string, index: nat, count: nat)
    requires Anonymous(stem)
    ensures
      var path := ShardPath(Join(dir, stem), index, count);
      |path| != |dir| + 1 || path == dir + [Name(FileNameOf("model", index, count))]
  {
    var prefix := Join(dir, stem);
    var name := if FileName(prefix).Some? then FileName(prefix).value else "model";
    JoinFile([], name, index, count);
    if Parent(prefix).Some? {
      JoinFile(Parent(prefix).value, name, index, count);
    }
  }

  /**
   * A shard given by name is among the shards then looked for exactly when its numbers carry no
   * plus sign and its stem is a file name of its own; and it is looked for under its own index.
   */
  lemma {:induction false} LooksForItself(dir: Path, file: string, index: nat)
    requires SplitPrefix(dir, file).Some? && index <= 0xFFFF_FFFF
    ensures var (prefix, count) := SplitPrefix(dir, file).value;
            ShardPath(prefix, index, count) == dir + [Name(file)] <==>
            !Anonymous(ReadFileName(file).value.stem) && !Signed(file) && index == ReadFileName(file).value.index
  {
    hide FileNameOf, CutName, Signed, ShardPath;
    NameRead(file);
    var named := ReadFileName(file).value;
    var (prefix, count) := SplitPrefix(dir, file).value;
    if Anonymous(named.stem) {
      AnonymousLooksElsewhere(dir, named.stem, index, count);
      if file == FileNameOf("model", index, count) {
        ReadWrittenName("model", index, count);
      }
      LastName(dir, file, FileNameOf("model", index, count));
    } else {
      WriteReadName(file, index);
      NamedShardPath(dir, named.stem, index, count);
      LastName(dir, file, FileNameOf(named.stem, index, count));
    }
  }

  lemma {:induction false} NameRead(file: string)
    requires ReadFileName(file).Some?
    ensures CutName(file).Some? && ReadFileName(file).value.count <= 0xFFFF_FFFF
  {}

  lemma {:induction false} LastName(dir: Path, a: string, b: string)
    ensures dir + [Name(a)] == dir + [Name(b)] <==> a == b
    ensures |dir + [Name(a)]| == |dir| + 1
  {
    assert (dir + [Name(a)])[|dir|] == Name(a) && (dir + [Name(b)])[|dir|] == Name(b);
  }

  lemma {:induction false} NamedShardPath(dir: Path, stem: string, index: nat, count: nat)
    requires !Anonymous(stem)
    ensures ShardPath(Join(dir, stem), index, count) == dir + [Name(FileNameOf(stem, index, count))]
  {
    var prefix := Join(dir, stem);
    assert FileName(prefix) == Some(stem) && Parent(prefix) == Some(dir);
    JoinFile(dir, stem, index, count);
  }
}
