/**
 * The GGUF header: reading its bytes, and a layout of headers that reading inverts.
 */
module Gguf {
  import opened Prelude
  import opened Utf8

  const MAX_STRING_LEN: nat := 10_485_760
  const MAX_DIMENSIONS: nat := 8
  const MAX_KV_COUNT: nat := 100_000
  const MAX_TENSOR_COUNT: nat := 10_000_000
  const MAX_ARRAY_LEN: nat := 10_000_000
  const DEFAULT_ALIGNMENT: nat := 32
  const MAGIC: seq<byte> := [0x47, 0x47, 0x55, 0x46]

  datatype GgufError =
    | Truncated
    | InvalidMagic
    | UnsupportedVersion(version: nat)
    | InvalidStringLength(length: nat)
    | InvalidStringUtf8
    | InvalidMetadataType(code: nat)
    | InvalidDimensionsCount(count: nat)
    | General

  // ---------------------------------------------------------------------------------------------
  // Values
  // ---------------------------------------------------------------------------------------------

  datatype ValueType =
    | UInt8T | Int8T | UInt16T | Int16T | UInt32T | Int32T | Float32T | BoolT | StringT | ArrayT | UInt64T | Int64T | Float64T

  /** Floats are kept by their bits. */
  datatype Value =
    | UInt8(n: nat) | Int8(i: int) | UInt16(n: nat) | Int16(i: int) | UInt32(n: nat) | Int32(i: int)
    | Float32(bits: nat) | Bool(flag: bool) | String(text: string)
    | Array(element: ValueType, values: seq<Value>)
    | UInt64(n: nat) | Int64(i: int) | Float64(bits: nat)

  function TypeOfCode(code: nat): Option<ValueType> {
    match code
    case 0 => Some(UInt8T)
    case 1 => Some(Int8T)
    case 2 => Some(UInt16T)
    case 3 => Some(Int16T)
    case 4 => Some(UInt32T)
    case 5 => Some(Int32T)
    case 6 => Some(Float32T)
    case 7 => Some(BoolT)
    case 8 => Some(StringT)
    case 9 => Some(ArrayT)
    case 10 => Some(UInt64T)
    case 11 => Some(Int64T)
    case 12 => Some(Float64T)
    case _ => None
  }

  function CodeOf(t: ValueType): nat {
    match t
    case UInt8T => 0
    case Int8T => 1
    case UInt16T => 2
    case Int16T => 3
    case UInt32T => 4
    case Int32T => 5
    case Float32T => 6
    case BoolT => 7
    case StringT => 8
    case ArrayT => 9
    case UInt64T => 10
    case Int64T => 11
    case Float64T => 12
  }

  function TypeOf(v: Value): ValueType {
    match v
    case UInt8(_) => UInt8T
    case Int8(_) => Int8T
    case UInt16(_) => UInt16T
    case Int16(_) => Int16T
    case UInt32(_) => UInt32T
    case Int32(_) => Int32T
    case Float32(_) => Float32T
    case Bool(_) => BoolT
    case String(_) => StringT
    case Array(_, _) => ArrayT
    case UInt64(_) => UInt64T
    case Int64(_) => Int64T
    case Float64(_) => Float64T
  }

  // ---------------------------------------------------------------------------------------------
  // Little-endian integers
  // ---------------------------------------------------------------------------------------------

  /** How many values fit in `width` bytes. */
  function Capacity(width: nat): (n: nat)
    ensures n > 0
  {
    if width == 0 then 1 else 256 * Capacity(width - 1)
  }

  function FromBytes(bytes: seq<byte>): nat {
    if bytes == [] then 0 else bytes[0] + 256 * FromBytes(bytes[1..])
  }

  function ToBytes(n: nat, width: nat): (bytes: seq<byte>)
    ensures |bytes| == width
  {
    if width == 0 then [] else [n % 256] + ToBytes(n / 256, width - 1)
  }

  lemma {:induction false} FromToBytes(n: nat, width: nat)
    requires n < Capacity(width)
    ensures FromBytes(ToBytes(n, width)) == n
  {
    if width > 0 {
      FromToBytes(n / 256, width - 1);
      assert ToBytes(n, width)[1..] == ToBytes(n / 256, width - 1);
    }
  }

  /** Two's complement. */
  function Signed(n: nat, width: nat): int {
    if 2 * n < Capacity(width) then n else n - Capacity(width)
  }

  function Unsigned(i: int, width: nat): int {
    if i < 0 then i + Capacity(width) else i
  }

  predicate FitsSigned(i: int, width: nat) {
    0 - Capacity(width) <= 2 * i < Capacity(width)
  }

  // ---------------------------------------------------------------------------------------------
  // Reading, as functions on the bytes that are left
  // ---------------------------------------------------------------------------------------------

  datatype Read<T> = Got(value: T, rest: seq<byte>) | Fail(error: GgufError)

  function Take(s: seq<byte>, n: nat): (r: Read<seq<byte>>)
    ensures r.Got? ==> |r.rest| <= |s|
  {
    if n <= |s| then Got(s[..n], s[n..]) else Fail(Truncated)
  }

  function ReadNat(s: seq<byte>, width: nat): (r: Read<nat>)
    ensures r.Got? ==> |r.rest| <= |s|
  {
    match Take(s, width)
    case Fail(e) => Fail(e)
    case Got(bytes, rest) => Got(FromBytes(bytes), rest)
  }

  function ReadString(s: seq<byte>): (r: Read<string>)
    ensures r.Got? ==> |r.rest| <= |s|
  {
    match ReadNat(s, 8)
    case Fail(e) => Fail(e)
    case Got(length, rest) =>
      if length > MAX_STRING_LEN then Fail(InvalidStringLength(length))
      else
        match Take(rest, length)
        case Fail(e) => Fail(e)
        case Got(bytes, after) =>
          match FromUtf8(bytes)
          case Err(_) => Fail(InvalidStringUtf8)
          case Ok(text) => Got(text, after)
  }

  /** How many bytes a fixed-size scalar takes. */
  function ScalarWidth(t: ValueType): nat
    requires !t.StringT? && !t.ArrayT?
  {
    match t
    case UInt8T => 1
    case Int8T => 1
    case BoolT => 1
    case UInt16T => 2
    case Int16T => 2
    case UInt32T => 4
    case Int32T => 4
    case Float32T => 4
    case UInt64T => 8
    case Int64T => 8
    case Float64T => 8
  }

  function ScalarOf(t: ValueType, n: nat): Value
    requires !t.StringT? && !t.ArrayT?
  {
    match t
    case UInt8T => UInt8(n)
    case Int8T => Int8(Signed(n, 1))
    case UInt16T => UInt16(n)
    case Int16T => Int16(Signed(n, 2))
    case UInt32T => UInt32(n)
    case Int32T => Int32(Signed(n, 4))
    case Float32T => Float32(n)
    case BoolT => Bool(n != 0)
    case UInt64T => UInt64(n)
    case Int64T => Int64(Signed(n, 8))
    case Float64T => Float64(n)
  }

  function ReadScalar(t: ValueType, s: seq<byte>): (r: Read<Value>)
    ensures r.Got? ==> |r.rest| <= |s|
  {
    match t
    case ArrayT => Fail(General)
    case StringT =>
      (match ReadString(s)
       case Fail(e) => Fail(e)
       case Got(text, rest) => Got(String(text), rest))
    case _ =>
      match ReadNat(s, ScalarWidth(t))
      case Fail(e) => Fail(e)
      case Got(n, rest) => Got(ScalarOf(t, n), rest)
  }

  function ReadElements(t: ValueType, n: nat, s: seq<byte>): (r: Read<seq<Value>>)
    ensures r.Got? ==> |r.rest| <= |s|
  {
    if n == 0 then Got([], s)
    else
      match ReadScalar(t, s)
      case Fail(e) => Fail(e)
      case Got(value, rest) =>
        match ReadElements(t, n - 1, rest)
        case Fail(e) => Fail(e)
        case Got(values, after) => Got([value] + values, after)
  }

  function ReadTypeCode(s: seq<byte>): (r: Read<ValueType>)
    ensures r.Got? ==> |r.rest| <= |s|
  {
    match ReadNat(s, 4)
    case Fail(e) => Fail(e)
    case Got(code, rest) =>
      match TypeOfCode(code)
      case None => Fail(InvalidMetadataType(code))
      case Some(t) => Got(t, rest)
  }

  function ReadArray(s: seq<byte>): (r: Read<Value>)
    ensures r.Got? ==> |r.rest| <= |s|
  {
    match ReadTypeCode(s)
    case Fail(e) => Fail(e)
    case Got(t, rest) =>
      if t.ArrayT? then Fail(General)
      else
        match ReadNat(rest, 8)
        case Fail(e) => Fail(e)
        case Got(n, after) =>
          if n > MAX_ARRAY_LEN then Fail(General)
          else
            match ReadElements(t, n, after)
            case Fail(e) => Fail(e)
            case Got(values, last) => Got(Array(t, values), last)
  }

  function ReadValue(s: seq<byte>): (r: Read<Value>)
    ensures r.Got? ==> |r.rest| <= |s|
  {
    match ReadTypeCode(s)
    case Fail(e) => Fail(e)
    case Got(t, rest) => if t.ArrayT? then ReadArray(rest) else ReadScalar(t, rest)
  }

  /** One entry; a later value of a repeated key replaces the earlier one. */
  function ReadEntry(s: seq<byte>, metadata: map<string, Value>): (r: Read<map<string, Value>>)
    ensures r.Got? ==> |r.rest| <= |s|
  {
    match ReadString(s)
    case Fail(e) => Fail(e)
    case Got(key, rest) =>
      match ReadValue(rest)
      case Fail(e) => Fail(e)
      case Got(value, after) => Got(metadata[key := value], after)
  }

  function ReadMetadata(n: nat, s: seq<byte>, metadata: map<string, Value>): (r: Read<map<string, Value>>)
    ensures r.Got? ==> |r.rest| <= |s|
  {
    if n == 0 then Got(metadata, s)
    else
      match ReadEntry(s, metadata)
      case Fail(e) => Fail(e)
      case Got(more, rest) => ReadMetadata(n - 1, rest, more)
  }

  datatype Info = Info(name: string, dims: seq<nat>, typeCode: nat, offset: nat)

  function ReadDims(n: nat, s: seq<byte>): (r: Read<seq<nat>>)
    ensures r.Got? ==> |r.rest| <= |s|
  {
    if n == 0 then Got([], s)
    else
      match ReadNat(s, 8)
      case Fail(e) => Fail(e)
      case Got(d, rest) =>
        match ReadDims(n - 1, rest)
        case Fail(e) => Fail(e)
        case Got(dims, after) => Got([d] + dims, after)
  }

  function ReadInfo(s: seq<byte>): (r: Read<Info>)
    ensures r.Got? ==> |r.rest| <= |s|
  {
    match ReadString(s)
    case Fail(e) => Fail(e)
    case Got(name, s1) =>
      match ReadNat(s1, 4)
      case Fail(e) => Fail(e)
      case Got(n, s2) =>
        if n > MAX_DIMENSIONS then Fail(InvalidDimensionsCount(n))
        else
          match ReadDims(n, s2)
          case Fail(e) => Fail(e)
          case Got(dims, s3) =>
            match ReadNat(s3, 4)
            case Fail(e) => Fail(e)
            case Got(typeCode, s4) =>
              match ReadNat(s4, 8)
              case Fail(e) => Fail(e)
              case Got(offset, s5) => Got(Info(name, dims, typeCode, offset), s5)
  }

  function ReadInfos(n: nat, s: seq<byte>): (r: Read<seq<Info>>)
    ensures r.Got? ==> |r.rest| <= |s|
  {
    if n == 0 then Got([], s)
    else
      match ReadInfo(s)
      case Fail(e) => Fail(e)
      case Got(info, rest) =>
        match ReadInfos(n - 1, rest)
        case Fail(e) => Fail(e)
        case Got(infos, after) => Got([info] + infos, after)
  }

  /** What the parser keeps of a header, before descriptors are computed. */
  datatype Header = Header(version: nat, metadata: map<string, Value>, infos: seq<Info>)

  function ReadHeader(s: seq<byte>): (r: Read<Header>)
    ensures r.Got? ==> |r.rest| <= |s|
  {
    match Take(s, 4)
    case Fail(e) => Fail(e)
    case Got(magic, s1) =>
      if magic != MAGIC then Fail(InvalidMagic)
      else
        match ReadNat(s1, 4)
        case Fail(e) => Fail(e)
        case Got(version, s2) =>
          if version != 1 && version != 2 && version != 3 then Fail(UnsupportedVersion(version))
          else ReadCounts(version, s2)
  }

  function ReadCounts(version: nat, s: seq<byte>): (r: Read<Header>)
    ensures r.Got? ==> |r.rest| <= |s|
  {
    match ReadNat(s, 8)
    case Fail(e) => Fail(e)
    case Got(tensorCount, s1) =>
      match ReadNat(s1, 8)
      case Fail(e) => Fail(e)
      case Got(kvCount, s2) => ReadBody(version, tensorCount, kvCount, s2)
  }

  function ReadBody(version: nat, tensorCount: nat, kvCount: nat, s: seq<byte>): (r: Read<Header>)
    ensures r.Got? ==> |r.rest| <= |s|
  {
    if tensorCount > MAX_TENSOR_COUNT then Fail(General)
    else if kvCount > MAX_KV_COUNT then Fail(General)
    else
      match ReadMetadata(kvCount, s, map[])
      case Fail(e) => Fail(e)
      case Got(metadata, s1) =>
        match ReadInfos(tensorCount, s1)
        case Fail(e) => Fail(e)
        case Got(infos, s2) => Got(Header(version, metadata, infos), s2)
  }

  // ---------------------------------------------------------------------------------------------
  // The layout
  // ---------------------------------------------------------------------------------------------

  function PrintString(text: string): seq<byte> {
    ToBytes(|EncodeAll(text)|, 8) + EncodeAll(text)
  }

  function PrintScalar(v: Value): seq<byte> {
    match v
    case Array(_, _) => []
    case UInt8(n) => ToBytes(n, 1)
    case Int8(i) => PrintSigned(i, 1)
    case UInt16(n) => ToBytes(n, 2)
    case Int16(i) => PrintSigned(i, 2)
    case UInt32(n) => ToBytes(n, 4)
    case Int32(i) => PrintSigned(i, 4)
    case Float32(bits) => ToBytes(bits, 4)
    case Bool(flag) => ToBytes(if flag then 1 else 0, 1)
    case String(text) => PrintString(text)
    case UInt64(n) => ToBytes(n, 8)
    case Int64(i) => PrintSigned(i, 8)
    case Float64(bits) => ToBytes(bits, 8)
  }

  function PrintSigned(i: int, width: nat): seq<byte> {
    var n := Unsigned(i, width);
    ToBytes(if n < 0 then 0 else n, width)
  }

  predicate ScalarFits(v: Value) {
    match v
    case UInt8(n) => n < Capacity(1)
    case Int8(i) => FitsSigned(i, 1)
    case UInt16(n) => n < Capacity(2)
    case Int16(i) => FitsSigned(i, 2)
    case UInt32(n) => n < Capacity(4)
    case Int32(i) => FitsSigned(i, 4)
    case Float32(bits) => bits < Capacity(4)
    case Bool(_) => true
    case String(text) => StringFits(text)
    case UInt64(n) => n < Capacity(8)
    case Int64(i) => FitsSigned(i, 8)
    case Float64(bits) => bits < Capacity(8)
    case Array(_, _) => false
  }

  predicate StringFits(text: string) {
    |EncodeAll(text)| <= 10 * 1024 * 1024
  }

  /** Arrays hold scalars of their element type. */
  predicate ValueFits(v: Value) {
    if v.Array? then
      && !v.element.ArrayT? && |v.values| <= 10_000_000
      && forall i :: 0 <= i < |v.values| ==> ElementFits(v.element, v.values[i])
    else ScalarFits(v)
  }

  predicate ElementFits(t: ValueType, v: Value) {
    ScalarFits(v) && TypeOf(v) == t
  }

  function PrintElements(values: seq<Value>): seq<byte> {
    if values == [] then [] else PrintScalar(values[0]) + PrintElements(values[1..])
  }

  function PrintValue(v: Value): seq<byte>
    requires ValueFits(v)
  {
    ToBytes(CodeOf(TypeOf(v)), 4) + if v.Array? then PrintArrayBody(v) else PrintScalar(v)
  }

  function PrintArrayBody(v: Value): seq<byte>
    requires ValueFits(v) && v.Array?
  {
    ToBytes(CodeOf(v.element), 4) + (ToBytes(|v.values|, 8) + PrintElements(v.values))
  }

  datatype Entry = Entry(key: string, value: Value)

  predicate EntryFits(e: Entry) {
    StringFits(e.key) && ValueFits(e.value)
  }

  function PrintEntries(entries: seq<Entry>): seq<byte>
    requires forall i :: 0 <= i < |entries| ==> EntryFits(entries[i])
  {
    if entries == [] then []
    else
      assert EntryFits(entries[0]);
      PrintString(entries[0].key) + (PrintValue(entries[0].value) + PrintEntries(entries[1..]))
  }

  predicate InfoFits(info: Info) {
    && StringFits(info.name) && |info.dims| <= 8
    && (forall i :: 0 <= i < |info.dims| ==> info.dims[i] < Capacity(8))
    && info.typeCode < Capacity(4) && info.offset < Capacity(8)
  }

  function PrintDims(dims: seq<nat>): seq<byte> {
    if dims == [] then [] else ToBytes(dims[0], 8) + PrintDims(dims[1..])
  }

  function PrintInfo(info: Info): seq<byte> {
    PrintString(info.name) + (ToBytes(|info.dims|, 4) + (PrintDims(info.dims)
    + (ToBytes(info.typeCode, 4) + ToBytes(info.offset, 8))))
  }

  function PrintInfos(infos: seq<Info>): seq<byte> {
    if infos == [] then [] else PrintInfo(infos[0]) + PrintInfos(infos[1..])
  }

  /** A header as it is written: entries in file order. */
  datatype Layout = Layout(version: nat, entries: seq<Entry>, infos: seq<Info>)

  /** Within the parser's limits. Keys need not be distinct. */
  predicate LayoutFits(h: Layout) {
    && 1 <= h.version <= 3 && |h.entries| <= 100_000 && |h.infos| <= 10_000_000
    && (forall i :: 0 <= i < |h.entries| ==> EntryFits(h.entries[i]))
    && (forall i :: 0 <= i < |h.infos| ==> InfoFits(h.infos[i]))
  }

  function PrintLayout(h: Layout): seq<byte>
    requires LayoutFits(h)
  {
    ['G' as int, 'G' as int, 'U' as int, 'F' as int] + (ToBytes(h.version, 4) + PrintCounted(h))
  }

  /** From the counts on. */
  function PrintCounted(h: Layout): seq<byte>
    requires LayoutFits(h)
  {
    ToBytes(|h.infos|, 8) + (ToBytes(|h.entries|, 8) + (PrintEntries(h.entries) + PrintInfos(h.infos)))
  }

  // ---------------------------------------------------------------------------------------------
  // Reading inverts the layout
  // ---------------------------------------------------------------------------------------------

  lemma {:induction false} TakeFront(a: seq<byte>, rest: seq<byte>)
    ensures Take(a + rest, |a|) == Got(a, rest)
  {
    assert (a + rest)[..|a|] == a && (a + rest)[|a|..] == rest;
  }

  lemma {:induction false} NatRead(n: nat, width: nat, rest: seq<byte>)
    requires n < Capacity(width)
    ensures ReadNat(ToBytes(n, width) + rest, width) == Got(n, rest)
  {
    TakeFront(ToBytes(n, width), rest);
    FromToBytes(n, width);
  }

  lemma {:induction false} CapacityOf8()
    ensures Capacity(1) == 256 && Capacity(2) == 0x1_0000
    ensures Capacity(4) == 0x1_0000_0000 && Capacity(8) == 0x1_0000_0000_0000_0000
  {
    assert Capacity(1) == 256 && Capacity(2) == 0x1_0000 && Capacity(3) == 0x100_0000;
    assert Capacity(4) == 0x1_0000_0000 && Capacity(5) == 0x100_0000_0000 && Capacity(6) == 0x1_0000_0000_0000;
    assert Capacity(7) == 0x100_0000_0000_0000;
  }

  lemma {:induction false} StringRead(text: string, rest: seq<byte>)
    requires StringFits(text)
    ensures ReadString(PrintString(text) + rest) == Got(text, rest)
  {
    var bytes := EncodeAll(text);
    CapacityOf8();
    Prepend(ToBytes(|bytes|, 8), bytes, rest);
    NatRead(|bytes|, 8, bytes + rest);
    TakeFront(bytes, rest);
    FromUtf8Inverts(bytes, text);
  }

  /** Past the limits everything is refused: strings over 10 MiB, arrays, dimensions and counts. */
  lemma {:induction false} RefusedBeyondLimits(s: seq<byte>, version: nat, tensorCount: nat, kvCount: nat)
    ensures ReadNat(s, 8).Got? && ReadNat(s, 8).value > 10 * 1024 * 1024 ==>
      ReadString(s) == Fail(InvalidStringLength(ReadNat(s, 8).value))
    ensures tensorCount > 10_000_000 || kvCount > 100_000 ==> ReadBody(version, tensorCount, kvCount, s) == Fail(General)
    ensures ReadString(s).Got? ==>
      var n := ReadNat(ReadString(s).rest, 4);
      n.Got? && n.value > 8 ==> ReadInfo(s) == Fail(InvalidDimensionsCount(n.value))
    ensures ReadTypeCode(s).Got? ==>
      var n := ReadNat(ReadTypeCode(s).rest, 8);
      n.Got? && n.value > 10_000_000 ==> ReadArray(s) == Fail(General)
  {}

  lemma {:induction false} SignedRead(i: int, width: nat, rest: seq<byte>)
    requires FitsSigned(i, width)
    ensures ReadNat(PrintSigned(i, width) + rest, width) == Got(Unsigned(i, width), rest)
    ensures Signed(Unsigned(i, width), width) == i
  {
    NatRead(Unsigned(i, width), width, rest);
  }

  lemma {:induction false} ScalarRead(v: Value, rest: seq<byte>)
    requires ScalarFits(v)
    ensures ReadScalar(TypeOf(v), PrintScalar(v) + rest) == Got(v, rest)
  {
    hide ReadNat, ToBytes, FromBytes, Capacity, Signed, Unsigned, FitsSigned, PrintSigned, ReadString, PrintString, StringFits;
    CapacityOf8();
    match v
    case UInt8(n) => NatRead(n, 1, rest);
    case Int8(i) => SignedRead(i, 1, rest);
    case UInt16(n) => NatRead(n, 2, rest);
    case Int16(i) => SignedRead(i, 2, rest);
    case UInt32(n) => NatRead(n, 4, rest);
    case Int32(i) => SignedRead(i, 4, rest);
    case Float32(bits) => NatRead(bits, 4, rest);
    case Bool(flag) => NatRead(if flag then 1 else 0, 1, rest);
    case String(text) => StringRead(text, rest);
    case UInt64(n) => NatRead(n, 8, rest);
    case Int64(i) => SignedRead(i, 8, rest);
    case Float64(bits) => NatRead(bits, 8, rest);
  }

  lemma {:induction false} ElementsRead(t: ValueType, values: seq<Value>, rest: seq<byte>)
    requires forall i :: 0 <= i < |values| ==> ElementFits(t, values[i])
    ensures ReadElements(t, |values|, PrintElements(values) + rest) == Got(values, rest)
  {
    if values == [] {
      assert PrintElements(values) + rest == rest;
    } else {
      assert ElementFits(t, values[0]);
      var tail := PrintElements(values[1..]) + rest;
      Prepend(PrintScalar(values[0]), PrintElements(values[1..]), rest);
      ScalarRead(values[0], tail);
      ElementsRead(t, values[1..], rest);
      assert [values[0]] + values[1..] == values;
    }
  }

  lemma {:induction false} TypeCodeRead(t: ValueType, rest: seq<byte>)
    ensures ReadTypeCode(ToBytes(CodeOf(t), 4) + rest) == Got(t, rest)
  {
    CapacityOf8();
    NatRead(CodeOf(t), 4, rest);
  }

  lemma {:induction false} ValueRead(v: Value, rest: seq<byte>)
    requires ValueFits(v)
    ensures ReadValue(PrintValue(v) + rest) == Got(v, rest)
  {
    hide ReadScalar, PrintScalar, ReadArray, PrintArrayBody, ToBytes, ReadTypeCode, ScalarFits, ElementFits, CodeOf;
    var code := ToBytes(CodeOf(TypeOf(v)), 4);
    if v.Array? {
      ArrayRead(v, rest);
      Prepend(code, PrintArrayBody(v), rest);
      TypeCodeRead(ArrayT, PrintArrayBody(v) + rest);
    } else {
      Prepend(code, PrintScalar(v), rest);
      TypeCodeRead(TypeOf(v), PrintScalar(v) + rest);
      ScalarRead(v, rest);
    }
  }

  lemma {:induction false} ArrayRead(v: Value, rest: seq<byte>)
    requires ValueFits(v) && v.Array?
    ensures ReadArray(PrintArrayBody(v) + rest) == Got(v, rest)
  {
    var code, count, elements := ToBytes(CodeOf(v.element), 4), ToBytes(|v.values|, 8), PrintElements(v.values);
    CapacityOf8();
    Prepend(code, count + elements, rest);
    Prepend(count, elements, rest);
    TypeCodeRead(v.element, count + (elements + rest));
    NatRead(|v.values|, 8, elements + rest);
    ElementsRead(v.element, v.values, rest);
  }

  /** The map the entries amount to: the last value of every key. */
  function Inserted(entries: seq<Entry>, metadata: map<string, Value>): map<string, Value> {
    if entries == [] then metadata else Inserted(entries[1..], metadata[entries[0].key := entries[0].value])
  }

  lemma {:induction false} MetadataRead(entries: seq<Entry>, metadata: map<string, Value>, rest: seq<byte>)
    requires forall i :: 0 <= i < |entries| ==> EntryFits(entries[i])
    ensures ReadMetadata(|entries|, PrintEntries(entries) + rest, metadata) == Got(Inserted(entries, metadata), rest)
    decreases |entries|
  {
    if entries == [] {
      assert PrintEntries(entries) + rest == rest;
    } else {
      var e := entries[0];
      assert EntryFits(e);
      var tail := PrintEntries(entries[1..]);
      Prepend(PrintString(e.key), PrintValue(e.value) + tail, rest);
      Prepend(PrintValue(e.value), tail, rest);
      StringRead(e.key, PrintValue(e.value) + (tail + rest));
      ValueRead(e.value, tail + rest);
      MetadataRead(entries[1..], metadata[e.key := e.value], rest);
    }
  }

  lemma {:induction false} DimsRead(dims: seq<nat>, rest: seq<byte>)
    requires forall i :: 0 <= i < |dims| ==> dims[i] < Capacity(8)
    ensures ReadDims(|dims|, PrintDims(dims) + rest) == Got(dims, rest)
  {
    if dims == [] {
      assert PrintDims(dims) + rest == rest;
    } else {
      var tail := PrintDims(dims[1..]);
      Prepend(ToBytes(dims[0], 8), tail, rest);
      NatRead(dims[0], 8, tail + rest);
      DimsRead(dims[1..], rest);
      assert [dims[0]] + dims[1..] == dims;
    }
  }

  lemma {:induction false} InfoRead(info: Info, rest: seq<byte>)
    requires InfoFits(info)
    ensures ReadInfo(PrintInfo(info) + rest) == Got(info, rest)
  {
    var name, count, dims := PrintString(info.name), ToBytes(|info.dims|, 4), PrintDims(info.dims);
    var code, offset := ToBytes(info.typeCode, 4), ToBytes(info.offset, 8);
    CapacityOf8();
    Prepend(name, count + (dims + (code + offset)), rest);
    Prepend(count, dims + (code + offset), rest);
    Prepend(dims, code + offset, rest);
    Prepend(code, offset, rest);
    StringRead(info.name, count + (dims + (code + (offset + rest))));
    NatRead(|info.dims|, 4, dims + (code + (offset + rest)));
    DimsRead(info.dims, code + (offset + rest));
    NatRead(info.typeCode, 4, offset + rest);
    NatRead(info.offset, 8, rest);
  }

  lemma {:induction false} InfosRead(infos: seq<Info>, rest: seq<byte>)
    requires forall i :: 0 <= i < |infos| ==> InfoFits(infos[i])
    ensures ReadInfos(|infos|, PrintInfos(infos) + rest) == Got(infos, rest)
  {
    hide ReadInfo, PrintInfo, InfoFits;
    if infos == [] {
      assert PrintInfos(infos) + rest == rest;
    } else {
      var tail := PrintInfos(infos[1..]);
      Prepend(PrintInfo(infos[0]), tail, rest);
      InfoRead(infos[0], tail + rest);
      InfosRead(infos[1..], rest);
      assert [infos[0]] + infos[1..] == infos;
    }
  }

  /** Every header within the limits is recovered exactly, whatever payload follows. */
  lemma {:induction false} HeaderRead(h: Layout, payload: seq<byte>)
    requires LayoutFits(h)
    ensures ReadHeader(PrintLayout(h) + payload) == Got(Header(h.version, Inserted(h.entries, map[]), h.infos), payload)
  {
    var version, counted := ToBytes(h.version, 4), PrintCounted(h);
    CapacityOf8();
    CountedRead(h, payload);
    hide ReadNat, ToBytes, PrintCounted, ReadCounts, Capacity;
    Prepend(MAGIC, version + counted, payload);
    Prepend(version, counted, payload);
    TakeFront(MAGIC, version + (counted + payload));
    NatRead(h.version, 4, counted + payload);
  }

  lemma {:induction false} CountedRead(h: Layout, payload: seq<byte>)
    requires LayoutFits(h)
    ensures ReadCounts(h.version, PrintCounted(h) + payload)
         == Got(Header(h.version, Inserted(h.entries, map[]), h.infos), payload)
  {
    var tensors, kvs := ToBytes(|h.infos|, 8), ToBytes(|h.entries|, 8);
    var entries, infos := PrintEntries(h.entries), PrintInfos(h.infos);
    CapacityOf8();
    BodyRead(h, payload);
    hide ReadNat, ToBytes, ReadBody, Capacity;
    Prepend(tensors, kvs + (entries + infos), payload);
    Prepend(kvs, entries + infos, payload);
    Prepend(entries, infos, payload);
    NatRead(|h.infos|, 8, kvs + (entries + (infos + payload)));
    NatRead(|h.entries|, 8, entries + (infos + payload));
  }

  lemma {:induction false} BodyRead(h: Layout, payload: seq<byte>)
    requires LayoutFits(h)
    ensures ReadBody(h.version, |h.infos|, |h.entries|, PrintEntries(h.entries) + (PrintInfos(h.infos) + payload))
         == Got(Header(h.version, Inserted(h.entries, map[]), h.infos), payload)
  {
    MetadataRead(h.entries, map[], PrintInfos(h.infos) + payload);
    InfosRead(h.infos, payload);
  }

  predicate DistinctKeys(entries: seq<Entry>) {
    forall i, j :: 0 <= i < j < |entries| ==> entries[i].key != entries[j].key
  }

  /** With distinct keys the map holds exactly the entries. */
  lemma {:induction false} InsertedExactly(entries: seq<Entry>, metadata: map<string, Value>, key: string)
    requires DistinctKeys(entries)
    ensures (forall i :: 0 <= i < |entries| ==> entries[i].key != key) ==>
      (key in Inserted(entries, metadata) <==> key in metadata)
      && (key in metadata ==> Inserted(entries, metadata)[key] == metadata[key])
    ensures forall i :: 0 <= i < |entries| && entries[i].key == key ==>
      key in Inserted(entries, metadata) && Inserted(entries, metadata)[key] == entries[i].value
    decreases |entries|
  {
    if entries != [] {
      var e := entries[0];
      assert forall i :: 0 < i < |entries| ==> entries[i] == entries[1..][i - 1];
      InsertedExactly(entries[1..], metadata[e.key := e.value], key);
      if e.key == key {
        forall i | 0 <= i < |entries[1..]| ensures entries[1..][i].key != key {
          assert entries[1..][i] == entries[i + 1];
        }
      }
    }
  }

  // ---------------------------------------------------------------------------------------------
  // Descriptors and the data section
  // ---------------------------------------------------------------------------------------------

  /** An integer of any width as `u64`; negative ones wrap. */
  function AsU64(v: Value): Option<nat> {
    match v
    case UInt8(n) => Some(n)
    case UInt16(n) => Some(n)
    case UInt32(n) => Some(n)
    case UInt64(n) => Some(n)
    case Int8(i) => Some(Wrapped(i))
    case Int16(i) => Some(Wrapped(i))
    case Int32(i) => Some(Wrapped(i))
    case Int64(i) => Some(Wrapped(i))
    case _ => None
  }

  function AlignmentOf(metadata: map<string, Value>): nat {
    if "general.alignment" in metadata && AsU64(metadata["general.alignment"]).Some?
    then AsU64(metadata["general.alignment"]).value
    else DEFAULT_ALIGNMENT
  }

  /** An integer of some width. */
  predicate IsInteger(v: Value, n: int) {
    || v == Int8(n) || v == Int16(n) || v == Int32(n) || v == Int64(n)
    || (n >= 0 && (v == UInt8(n) || v == UInt16(n) || v == UInt32(n) || v == UInt64(n)))
  }

  /** The default, unless the metadata name another integer; one below zero counts from 2^64 down. */
  ghost predicate IsAlignment(metadata: map<string, Value>, alignment: nat) {
    && ("general.alignment" !in metadata ==> alignment == 32)
    && ("general.alignment" in metadata ==>
      var v := metadata["general.alignment"];
      && (v.Float32? || v.Float64? || v.Bool? || v.String? || v.Array? ==> alignment == 32)
      && (forall n :: IsInteger(v, n) && 0 <= n <= U64_MAX ==> alignment == n)
      && (forall n :: IsInteger(v, n) && -0x8000_0000_0000_0000 <= n < 0 ==> alignment == n + 0x1_0000_0000_0000_0000))
  }

  lemma {:induction false} AsU64OfInteger(v: Value, n: int)
    requires IsInteger(v, n)
    ensures 0 <= n <= U64_MAX ==> AsU64(v) == Some(n)
    ensures -0x8000_0000_0000_0000 <= n < 0 ==> AsU64(v) == Some(n + 0x1_0000_0000_0000_0000)
  {}

  lemma {:induction false} AlignmentOfExactly(metadata: map<string, Value>)
    ensures IsAlignment(metadata, AlignmentOf(metadata))
  {
    if "general.alignment" in metadata {
      var v := metadata["general.alignment"];
      assert v.Float32? || v.Float64? || v.Bool? || v.String? || v.Array? ==> AsU64(v) == None;
      hide AsU64, IsInteger;
      forall n | IsInteger(v, n)
        ensures 0 <= n <= U64_MAX ==> AsU64(v) == Some(n)
        ensures -0x8000_0000_0000_0000 <= n < 0 ==> AsU64(v) == Some(n + 0x1_0000_0000_0000_0000)
      {
        AsU64OfInteger(v, n);
      }
    }
  }

  /** In 64 bits: past the largest number the sum wraps. An alignment of zero aligns nothing. */
  function AlignOffset(offset: nat, alignment: nat): nat {
    if alignment == 0 then offset
    else if offset % alignment == 0 then offset
    else Wrapped(offset + (alignment - offset % alignment))
  }

  predicate IsMultiple(n: nat, alignment: nat)
    requires alignment > 0
  {
    n % alignment == 0
  }

  /** The least multiple of the alignment at or after the offset. */
  ghost predicate IsLeastMultiple(start: nat, offset: nat, alignment: nat)
    requires alignment > 0
  {
    && offset <= start && IsMultiple(start, alignment)
    && forall n :: offset <= n < start ==> !IsMultiple(n, alignment)
  }

  lemma {:induction false} MultipleAtLeast(a: int, k: int)
    requires a > 0 && k >= 1
    ensures a * k >= a
  {}

  lemma {:induction false} QuotientIsUnique(n: int, a: int, q: int, r: int)
    requires a > 0 && n == a * q + r && 0 <= r < a
    ensures n % a == r
  {
    var p := n / a;
    assert n == a * p + n % a;
    if p < q {
      assert a * (q - p) == a * q - a * p;
      MultipleAtLeast(a, q - p);
    } else if q < p {
      assert a * (p - q) == a * p - a * q;
      MultipleAtLeast(a, p - q);
    }
  }

  lemma {:induction false} NextMultiple(offset: nat, alignment: nat)
    requires alignment > 0 && offset % alignment != 0
    ensures IsLeastMultiple(offset + (alignment - offset % alignment), offset, alignment)
  {
    var r, q := offset % alignment, offset / alignment;
    var start := offset + (alignment - r);
    assert offset == alignment * q + r;
    assert start == alignment * (q + 1) + 0;
    QuotientIsUnique(start, alignment, q + 1, 0);
    forall n | offset <= n < start ensures !IsMultiple(n, alignment) {
      QuotientIsUnique(n, alignment, q, r + (n - offset));
    }
  }

  /** The last position a file can have: file offsets are signed 64-bit numbers. */
  const MAX_POSITION: nat := 0x7FFF_FFFF_FFFF_FFFF

  /** From any file position, under any alignment, the data section starts at the least multiple. */
  lemma {:induction false} AlignmentIsLeast(offset: nat, alignment: nat)
    requires 0 < alignment <= U64_MAX && offset <= MAX_POSITION
    ensures IsLeastMultiple(AlignOffset(offset, alignment), offset, alignment)
    ensures AlignOffset(offset, alignment) <= U64_MAX
  {
    var r := offset % alignment;
    if r != 0 {
      NextMultiple(offset, alignment);
      if alignment <= offset {
        assert r < alignment;
      } else {
        QuotientIsUnique(offset, alignment, 0, offset);
      }
    }
  }

  /** The function alone would go wrong only past every file position, when the multiple exceeds 64 bits. */
  lemma {:induction false} AlignOffsetWraps(offset: nat, alignment: nat)
    requires alignment > 0 && offset <= U64_MAX
    ensures IsLeastMultiple(AlignOffset(offset, alignment), offset, alignment)
      <==> offset % alignment == 0 || offset + (alignment - offset % alignment) <= U64_MAX
  {
    if offset % alignment != 0 {
      NextMultiple(offset, alignment);
    }
  }

  /** Elements in a block and bytes a block takes, by type code; unknown types have neither. */
  function TypeInfo(code: nat): Option<(nat, nat)> {
    match code
    case 0 => Some((1, 4))
    case 1 => Some((1, 2))
    case 2 => Some((32, 18))
    case 3 => Some((32, 20))
    case 6 => Some((32, 22))
    case 7 => Some((32, 24))
    case 8 => Some((32, 34))
    case 9 => Some((32, 40))
    case 10 => Some((256, 84))
    case 11 => Some((256, 110))
    case 12 => Some((256, 144))
    case 13 => Some((256, 176))
    case 14 => Some((256, 210))
    case 15 => Some((256, 292))
    case 16 => Some((256, 66))
    case 17 => Some((256, 74))
    case 18 => Some((256, 98))
    case 19 => Some((256, 50))
    case 20 => Some((32, 18))
    case 21 => Some((256, 110))
    case 22 => Some((256, 82))
    case 23 => Some((256, 136))
    case 24 => Some((1, 1))
    case 25 => Some((1, 2))
    case 26 => Some((1, 4))
    case 27 => Some((1, 8))
    case 28 => Some((1, 8))
    case 29 => Some((256, 56))
    case 30 => Some((1, 2))
    case 34 => Some((256, 54))
    case 35 => Some((256, 70))
    case 39 => Some((32, 18))
    case _ => None
  }

  /** The product of the dimensions, or the largest number as soon as a partial product overflows. */
  function NumElements(dims: seq<nat>): nat {
    match CheckedProduct(dims)
    case Some(n) => n
    case None => U64_MAX
  }

  function CheckedProduct(dims: seq<nat>): Option<nat> {
    if dims == [] then Some(1)
    else
      match CheckedProduct(dims[..|dims| - 1])
      case None => None
      case Some(n) => if n * dims[|dims| - 1] <= U64_MAX then Some(n * dims[|dims| - 1]) else None
  }

  // ---------------------------------------------------------------------------------------------
  // How many elements dimensions have
  // ---------------------------------------------------------------------------------------------

  /** One coordinate for every dimension, each below it. */
  predicate IsIndexVector(dims: seq<nat>, v: seq<nat>) {
    |v| == |dims| && forall i :: 0 <= i < |dims| ==> v[i] < dims[i]
  }

  function Product(dims: seq<nat>): nat {
    if dims == [] then 1 else dims[0] * Product(dims[1..])
  }

  /** `vectors` lists all index vectors of `dims`, each once. */
  ghost predicate ListsIndexVectors(dims: seq<nat>, vectors: seq<seq<nat>>) {
    && (forall i, j :: 0 <= i < j < |vectors| ==> vectors[i] != vectors[j])
    && (forall i :: 0 <= i < |vectors| ==> IsIndexVector(dims, vectors[i]))
    && (forall v :: IsIndexVector(dims, v) ==> v in vectors)
  }

  /** Every one of `tails` behind the coordinate `c`. */
  function Behind(c: nat, tails: seq<seq<nat>>): (vectors: seq<seq<nat>>)
    ensures |vectors| == |tails| && forall i :: 0 <= i < |tails| ==> vectors[i] == [c] + tails[i]
  {
    seq(|tails|, i requires 0 <= i < |tails| => [c] + tails[i])
  }

  /** Every one of `tails` behind every coordinate below `d`. */
  function Layers(d: nat, tails: seq<seq<nat>>): (vectors: seq<seq<nat>>)
    ensures |vectors| == d * |tails|
  {
    if d == 0 then [] else Layers(d - 1, tails) + Behind(d - 1, tails)
  }

  lemma {:induction false} LayersList(d: nat, dims: seq<nat>, tails: seq<seq<nat>>)
    requires ListsIndexVectors(dims, tails)
    ensures ListsIndexVectors([d] + dims, Layers(d, tails))
  {
    if d > 0 {
      LayersList(d - 1, dims, tails);
      var below, last := Layers(d - 1, tails), Behind(d - 1, tails);
      var vectors := below + last;
      forall i | 0 <= i < |vectors| ensures IsIndexVector([d] + dims, vectors[i]) {
        if i < |below| {
          assert IsIndexVector([d - 1] + dims, below[i]);
        } else {
          assert vectors[i] == [d - 1] + tails[i - |below|];
        }
      }
      forall i, j | 0 <= i < j < |vectors| ensures vectors[i] != vectors[j] {
        LayersDiffer(d, dims, tails, i, j);
      }
      forall v | IsIndexVector([d] + dims, v) ensures v in vectors {
        InSomeLayer(d, dims, tails, v);
      }
    } else {
      forall v ensures !IsIndexVector([0] + dims, v) {
        assert ([0] + dims)[0] == 0;
      }
    }
  }

  lemma {:induction false} FirstCoordinate(d: nat, dims: seq<nat>, v: seq<nat>)
    requires IsIndexVector([d] + dims, v)
    ensures v != [] && v[0] < d
  {
    assert ([d] + dims)[0] == d;
  }

  lemma {:induction false} BehindDiffer(c: nat, tails: seq<seq<nat>>, i: nat, j: nat)
    requires i < |tails| && j < |tails| && tails[i] != tails[j]
    ensures Behind(c, tails)[i] != Behind(c, tails)[j]
  {
    assert Behind(c, tails)[i][1..] == tails[i] && Behind(c, tails)[j][1..] == tails[j];
  }

  /** A vector of the layers below and one of the last differ in their first coordinate. */
  lemma {:induction false} LayersApart(d: nat, dims: seq<nat>, below: seq<nat>, tail: seq<nat>)
    requires d > 0 && IsIndexVector([d - 1] + dims, below)
    ensures below != [d - 1] + tail
  {
    FirstCoordinate(d - 1, dims, below);
  }

  lemma {:induction false} LayersDiffer(d: nat, dims: seq<nat>, tails: seq<seq<nat>>, i: nat, j: nat)
    requires d > 0 && ListsIndexVectors(dims, tails) && ListsIndexVectors([d - 1] + dims, Layers(d - 1, tails))
    requires i < j < |Layers(d, tails)|
    ensures Layers(d, tails)[i] != Layers(d, tails)[j]
  {
    hide IsIndexVector, Behind;
    var below, last := Layers(d - 1, tails), Behind(d - 1, tails);
    var n := |below|;
    assert Layers(d, tails) == below + last;
    hide Layers;
    if j < n {
    } else if i < n {
      LayersApart(d, dims, below[i], tails[j - n]);
    } else {
      BehindDiffer(d - 1, tails, i - n, j - n);
    }
  }

  lemma {:induction false} InSomeLayer(d: nat, dims: seq<nat>, tails: seq<seq<nat>>, v: seq<nat>)
    requires d > 0 && ListsIndexVectors(dims, tails) && ListsIndexVectors([d - 1] + dims, Layers(d - 1, tails))
    requires IsIndexVector([d] + dims, v)
    ensures v in Layers(d, tails)
  {
    var all := [d] + dims;
    assert v[0] < all[0];
    forall i | 0 <= i < |dims| ensures v[1..][i] < dims[i] {
      assert v[i + 1] < all[i + 1];
    }
    if v[0] == d - 1 {
      assert IsIndexVector(dims, v[1..]);
      var i :| 0 <= i < |tails| && tails[i] == v[1..];
      assert Behind(d - 1, tails)[i] == v;
    } else {
      var fewer := [d - 1] + dims;
      forall i | 0 <= i < |fewer| ensures v[i] < fewer[i] {
        assert i > 0 ==> v[i] == v[1..][i - 1];
      }
      assert IsIndexVector(fewer, v);
    }
  }

  /** The product of the dimensions is the number of their index vectors. */
  lemma {:induction false} ProductCounts(dims: seq<nat>) returns (vectors: seq<seq<nat>>)
    ensures ListsIndexVectors(dims, vectors) && |vectors| == Product(dims)
  {
    if dims == [] {
      vectors := [[]];
    } else {
      var tails := ProductCounts(dims[1..]);
      vectors := Layers(dims[0], tails);
      LayersList(dims[0], dims[1..], tails);
      assert dims == [dims[0]] + dims[1..];
    }
  }

  /** The product of the first dimensions, however many, always fits 64 bits. */
  predicate PrefixesFit(dims: seq<nat>) {
    forall n :: 0 <= n <= |dims| ==> Product(dims[..n]) <= U64_MAX
  }

  lemma {:induction false} ProductLast(dims: seq<nat>)
    requires dims != []
    ensures Product(dims) == Product(dims[..|dims| - 1]) * dims[|dims| - 1]
  {
    var n := |dims| - 1;
    if n == 0 {
      assert dims[..0] == [] && dims[1..] == [];
    } else {
      var front, last := dims[..n], dims[n];
      ProductLast(dims[1..]);
      assert dims[1..][..n - 1] == front[1..] && front[0] == dims[0];
      Associates(dims[0], Product(front[1..]), last);
    }
  }

  lemma {:induction false} Associates(a: nat, b: nat, c: nat)
    ensures a * (b * c) == (a * b) * c
  {}

  lemma {:induction false} CheckedProductExactly(dims: seq<nat>)
    ensures CheckedProduct(dims) == if PrefixesFit(dims) then Some(Product(dims)) else None
  {
    if dims == [] {
      assert dims[..0] == dims;
    } else {
      var n := |dims| - 1;
      CheckedProductExactly(dims[..n]);
      ProductLast(dims);
      assert forall m :: 0 <= m <= n ==> dims[..n][..m] == dims[..m];
      assert dims[..n + 1] == dims;
      if PrefixesFit(dims) {
        forall m | 0 <= m <= n ensures Product(dims[..n][..m]) <= U64_MAX {
          assert Product(dims[..m]) <= U64_MAX;
        }
      }
    }
  }

  /** The element count is the number of index vectors exactly while no partial product overflows. */
  lemma {:induction false} NumElementsExactly(dims: seq<nat>)
    ensures NumElements(dims) == if PrefixesFit(dims) then Product(dims) else U64_MAX
    ensures NumElements(dims) == Product(dims) <==> PrefixesFit(dims)
    ensures NumElements([]) == 1
  {
    CheckedProductExactly(dims);
    if !PrefixesFit(dims) {
      var n :| 0 <= n <= |dims| && Product(dims[..n]) > U64_MAX;
      ProductAppend(dims[..n], dims[n..]);
      assert dims == dims[..n] + dims[n..];
      AtLeastOrZero(Product(dims[..n]), Product(dims[n..]));
    }
  }

  lemma {:induction false} AtLeastOrZero(a: nat, b: nat)
    ensures a * b == 0 || a * b >= a
  {
    if b > 0 {
      assert a * b == a * (b - 1) + a;
    }
  }

  lemma {:induction false} ProductAppend(a: seq<nat>, b: seq<nat>)
    ensures Product(a + b) == Product(a) * Product(b)
  {
    if a == [] {
      assert a + b == b;
    } else {
      assert (a + b)[1..] == a[1..] + b;
      ProductAppend(a[1..], b);
      Associates(a[0], Product(a[1..]), Product(b));
    }
  }

  function ByteLength(typeCode: nat, elements: nat): Option<nat> {
    match TypeInfo(typeCode)
    case None => None
    case Some((block, size)) =>
      if elements == U64_MAX then None
      else
        var blocks := (elements + block - 1) / block;
        if blocks * size <= U64_MAX then Some(blocks * size) else None
  }

  /** As many whole blocks as it takes to hold the elements. */
  predicate FewestBlocks(elements: nat, block: nat, blocks: nat) {
    (blocks - 1) * block < elements <= blocks * block
  }

  /** The bytes of the fewest whole blocks, known if the type is and as long as both counts fit 64 bits. */
  ghost predicate IsByteLength(typeCode: nat, elements: nat, length: Option<nat>) {
    match TypeInfo(typeCode)
    case None => length == None
    case Some((block, size)) =>
      exists blocks: nat ::
        && FewestBlocks(elements, block, blocks)
        && length == if elements == U64_MAX || blocks * size > U64_MAX then None else Some(blocks * size)
  }

  lemma {:induction false} ByteLengthExactly(typeCode: nat, elements: nat)
    ensures IsByteLength(typeCode, elements, ByteLength(typeCode, elements))
  {
    if TypeInfo(typeCode).Some? {
      var (block, size) := TypeInfo(typeCode).value;
      var blocks := (elements + block - 1) / block;
      assert block in {1, 32, 256};
      assert FewestBlocks(elements, block, blocks);
    }
  }

  /** A known length is that of the fewest whole blocks holding the elements. */
  lemma {:induction false} ByteLengthIsTight(typeCode: nat, elements: nat)
    ensures ByteLength(typeCode, elements).Some? ==>
      exists blocks ::
        ByteLength(typeCode, elements).value == blocks * TypeInfo(typeCode).value.1
        && (blocks - 1) * TypeInfo(typeCode).value.0 < elements <= blocks * TypeInfo(typeCode).value.0
  {
    if ByteLength(typeCode, elements).Some? {
      var (block, size) := TypeInfo(typeCode).value;
      var blocks := (elements + block - 1) / block;
      assert block in {1, 32, 256};
      assert (blocks - 1) * block < elements <= blocks * block;
      assert ByteLength(typeCode, elements).value == blocks * size;
    }
  }

  datatype Descriptor = Descriptor(
    name: string,
    dims: seq<nat>,
    typeCode: nat,
    offset: nat,
    fileOffset: nat,
    byteLength: Option<nat>,
    numElements: nat)

  datatype Model = Model(
    version: nat,
    metadata: map<string, Value>,
    tensors: seq<Descriptor>,
    alignment: nat,
    dataStart: nat)

  /** Offsets in the file are relative to the data start; that sum wraps in 64 bits too. */
  function Describe(info: Info, dataStart: nat): Descriptor {
    var elements := NumElements(info.dims);
    Descriptor(info.name, info.dims, info.typeCode, info.offset, Wrapped(dataStart + info.offset),
               ByteLength(info.typeCode, elements), elements)
  }

  /** A described tensor starts in the data section exactly when that sum does not wrap. */
  lemma {:induction false} DescribedInData(info: Info, dataStart: nat)
    requires info.offset <= U64_MAX && dataStart <= U64_MAX
    ensures dataStart <= Describe(info, dataStart).fileOffset <==> dataStart + info.offset <= U64_MAX
  {}

  /**
   * What a descriptor says of its tensor: the elements are the index vectors of its dimensions, as
   * long as no partial product exceeds 64 bits, and the bytes are those of the fewest whole blocks.
   */
  ghost predicate Describes(d: Descriptor, info: Info, dataStart: nat) {
    && d.name == info.name && d.dims == info.dims && d.typeCode == info.typeCode && d.offset == info.offset
    && d.fileOffset == (dataStart + info.offset) % 0x1_0000_0000_0000_0000
    && d.numElements == (if PrefixesFit(info.dims) then Product(info.dims) else U64_MAX)
    && IsByteLength(info.typeCode, d.numElements, d.byteLength)
  }

  lemma {:induction false} DescribeDescribes(info: Info, dataStart: nat)
    ensures Describes(Describe(info, dataStart), info, dataStart)
  {
    hide NumElements, ByteLength, IsByteLength, PrefixesFit, Product;
    NumElementsExactly(info.dims);
    ByteLengthExactly(info.typeCode, NumElements(info.dims));
  }

  function DescribeAll(infos: seq<Info>, dataStart: nat): (tensors: seq<Descriptor>)
    ensures |tensors| == |infos|
    ensures forall i :: 0 <= i < |infos| ==> tensors[i] == Describe(infos[i], dataStart)
  {
    seq(|infos|, i requires 0 <= i < |infos| => Describe(infos[i], dataStart))
  }

  function ModelOf(h: Header, headerEnd: nat): Model {
    var alignment := AlignmentOf(h.metadata);
    var dataStart := AlignOffset(headerEnd, alignment);
    Model(h.version, h.metadata, DescribeAll(h.infos, dataStart), alignment, dataStart)
  }

  /** A whole file. */
  function ParseGguf(file: seq<byte>): Result<Model, GgufError> {
    match ReadHeader(file)
    case Fail(e) => Err(e)
    case Got(h, rest) => Ok(ModelOf(h, |file| - |rest|))
  }

  // ---------------------------------------------------------------------------------------------
  // What holds of every file that parses
  // ---------------------------------------------------------------------------------------------

  lemma {:induction false} FromBytesBound(bytes: seq<byte>)
    ensures FromBytes(bytes) < Capacity(|bytes|)
  {
    if bytes != [] {
      FromBytesBound(bytes[1..]);
    }
  }

  lemma {:induction false} ReadNatBound(s: seq<byte>, width: nat)
    ensures ReadNat(s, width).Got? ==> ReadNat(s, width).value < Capacity(width)
  {
    if width <= |s| {
      FromBytesBound(s[..width]);
    }
  }

  predicate NumberFits(v: Value) {
    AsU64(v).Some? ==> AsU64(v).value <= U64_MAX
  }

  lemma {:induction false} ReadValueFits(s: seq<byte>)
    ensures ReadValue(s).Got? ==> NumberFits(ReadValue(s).value)
  {
    hide ReadNat, Capacity, ReadArray;
    match ReadTypeCode(s)
    case Fail(_) =>
    case Got(t, rest) =>
      CapacityOf8();
      if !t.ArrayT? && !t.StringT? {
        ReadNatBound(rest, ScalarWidth(t));
      } else if t.ArrayT? {
        ReadArrayIsArray(rest);
      }
  }

  lemma {:induction false} ReadArrayIsArray(s: seq<byte>)
    ensures ReadArray(s).Got? ==> ReadArray(s).value.Array?
  {}

  lemma {:induction false} ReadMetadataFits(n: nat, s: seq<byte>, metadata: map<string, Value>)
    requires forall key :: key in metadata ==> NumberFits(metadata[key])
    ensures ReadMetadata(n, s, metadata).Got? ==>
      forall key :: key in ReadMetadata(n, s, metadata).value ==> NumberFits(ReadMetadata(n, s, metadata).value[key])
  {
    hide ReadValue, ReadString;
    if n > 0 {
      match ReadString(s)
      case Fail(_) =>
      case Got(key, rest) =>
        ReadValueFits(rest);
        match ReadValue(rest)
        case Fail(_) =>
        case Got(value, after) => ReadMetadataFits(n - 1, after, metadata[key := value]);
    }
  }

  lemma {:induction false} ReadInfoFits(s: seq<byte>)
    ensures ReadInfo(s).Got? ==> ReadInfo(s).value.offset <= U64_MAX
  {
    hide ReadNat, ReadDims, ReadString, Capacity;
    CapacityOf8();
    match ReadString(s)
    case Fail(_) =>
    case Got(_, s1) =>
      match ReadNat(s1, 4)
      case Fail(_) =>
      case Got(n, s2) =>
        match ReadDims(n, s2)
        case Fail(_) =>
        case Got(_, s3) =>
          match ReadNat(s3, 4)
          case Fail(_) =>
          case Got(_, s4) => ReadNatBound(s4, 8);
  }

  lemma {:induction false} ReadInfosFit(n: nat, s: seq<byte>)
    ensures ReadInfos(n, s).Got? ==>
      |ReadInfos(n, s).value| == n && forall i :: 0 <= i < n ==> ReadInfos(n, s).value[i].offset <= U64_MAX
  {
    hide ReadInfo;
    if n > 0 {
      ReadInfoFits(s);
      match ReadInfo(s)
      case Fail(_) =>
      case Got(_, rest) => ReadInfosFit(n - 1, rest);
    }
  }

  lemma {:induction false} ReadHeaderFits(s: seq<byte>)
    ensures ReadHeader(s).Got? ==>
      && (forall key :: key in ReadHeader(s).value.metadata ==> NumberFits(ReadHeader(s).value.metadata[key]))
      && (forall i :: 0 <= i < |ReadHeader(s).value.infos| ==> ReadHeader(s).value.infos[i].offset <= U64_MAX)
  {
    hide ReadNat, ReadMetadata, ReadInfos, NumberFits;
    if ReadHeader(s).Got? {
      var s1 := Take(s, 4).rest;
      var s2 := ReadNat(s1, 4).rest;
      var tensorCount := ReadNat(s2, 8);
      var kvCount := ReadNat(tensorCount.rest, 8);
      ReadMetadataFits(kvCount.value, kvCount.rest, map[]);
      ReadInfosFit(tensorCount.value, ReadMetadata(kvCount.value, kvCount.rest, map[]).rest);
    }
  }

  /** Where a file's data section starts after a header ending at `headerEnd`. */
  ghost predicate StartsAfter(dataStart: nat, headerEnd: nat, alignment: nat) {
    if alignment == 0 then dataStart == headerEnd else IsLeastMultiple(dataStart, headerEnd, alignment)
  }

  /**
   * In every file that parses, the data section starts at the least multiple of the file's own
   * alignment after the header (at once when that alignment is zero), and a tensor starts in it
   * exactly when the sum of the two offsets does not wrap.
   */
  lemma {:induction false} ParsedDataSection(file: seq<byte>)
    requires |file| <= MAX_POSITION && ReadHeader(file).Got?
    ensures
      var h, model := ReadHeader(file).value, ParseGguf(file).value;
      && ParseGguf(file).Ok? && StartsAfter(model.dataStart, |file| - |ReadHeader(file).rest|, model.alignment)
      && model.dataStart <= U64_MAX && |model.tensors| == |h.infos|
      && forall i :: 0 <= i < |h.infos| ==>
        model.tensors[i].fileOffset <= U64_MAX
        && (model.dataStart <= model.tensors[i].fileOffset <==> model.dataStart + h.infos[i].offset <= U64_MAX)
  {
    hide ReadHeader, IsLeastMultiple;
    ReadHeaderFits(file);
    var h, model := ReadHeader(file).value, ParseGguf(file).value;
    var headerEnd := |file| - |ReadHeader(file).rest|;
    assert NumberFits(UInt8(0));
    if model.alignment > 0 {
      assert "general.alignment" in h.metadata ==> NumberFits(h.metadata["general.alignment"]);
      AlignmentIsLeast(headerEnd, model.alignment);
    }
    forall i | 0 <= i < |h.infos|
      ensures model.tensors[i].fileOffset <= U64_MAX
      ensures model.dataStart <= model.tensors[i].fileOffset <==> model.dataStart + h.infos[i].offset <= U64_MAX
    {
      DescribedInData(h.infos[i], model.dataStart);
    }
  }

  /** Every file that parses: its descriptors describe the tensor infos read, under its own alignment. */
  lemma {:induction false} ParsedDescribes(file: seq<byte>)
    requires ReadHeader(file).Got?
    ensures
      var h, model := ReadHeader(file).value, ParseGguf(file).value;
      && ParseGguf(file).Ok? && |model.tensors| == |h.infos| && IsAlignment(model.metadata, model.alignment)
      && forall i :: 0 <= i < |h.infos| ==> Describes(model.tensors[i], h.infos[i], model.dataStart)
  {
    hide ReadHeader, Describes, IsAlignment, Describe, AlignOffset;
    var h, model := ReadHeader(file).value, ParseGguf(file).value;
    AlignmentOfExactly(h.metadata);
    forall i | 0 <= i < |h.infos| ensures Describes(model.tensors[i], h.infos[i], model.dataStart) {
      DescribeDescribes(h.infos[i], model.dataStart);
    }
  }

  /** Parsing a written header, before any payload, gives back its entries and tensor infos. */
  lemma {:induction false} ParseInverts(h: Layout, payload: seq<byte>)
    requires LayoutFits(h)
    ensures ParseGguf(PrintLayout(h) + payload)
         == Ok(ModelOf(Header(h.version, Inserted(h.entries, map[]), h.infos), |PrintLayout(h)|))
  {
    hide ReadHeader, PrintLayout, ModelOf, Inserted;
    HeaderRead(h, payload);
  }
}
