/** The stateful reader that advances through a file, proved against the reading functions. */
module GgufReader {
  import opened Prelude
  import opened Utf8
  import opened Gguf

  /** The outcome, and the bytes not yet read after it, agree with what reading means. */
  ghost predicate Agrees<T>(r: Result<T, GgufError>, left: seq<byte>, read: Read<T>) {
    match read
    case Fail(e) => r == Err(e)
    case Got(value, rest) => r == Ok(value) && left == rest
  }

  class Reader {
    const file: seq<byte>
    var position: nat

    constructor (file: seq<byte>)
      ensures this.file == file && position == 0
    {
      this.file := file;
      position := 0;
    }

    method ReadExactBytes(n: nat) returns (r: Result<seq<byte>, GgufError>)
      requires position <= |file|
      modifies this`position
      ensures position <= |file|
      ensures Agrees(r, file[position..], Take(old(file[position..]), n))
    {
      if position + n > |file| {
        return Err(Truncated);
      }
      r := Ok(file[position..position + n]);
      assert file[position..][..n] == file[position..position + n];
      position := position + n;
    }

    /** `read_u8` to `read_u64_le`, by width. */
    method ReadUnsigned(width: nat) returns (r: Result<nat, GgufError>)
      requires position <= |file|
      modifies this`position
      ensures position <= |file|
      ensures Agrees(r, file[position..], ReadNat(old(file[position..]), width))
    {
      var bytes := ReadExactBytes(width);
      match bytes
      case Err(e) => r := Err(e);
      case Ok(value) => r := Ok(FromBytes(value));
    }

    method ReadText() returns (r: Result<string, GgufError>)
      requires position <= |file|
      modifies this`position
      ensures position <= |file|
      ensures Agrees(r, file[position..], ReadString(old(file[position..])))
    {
      var length := ReadUnsigned(8);
      if length.Err? {
        return Err(length.error);
      }
      if length.value > MAX_STRING_LEN {
        return Err(InvalidStringLength(length.value));
      }
      var bytes := ReadExactBytes(length.value);
      if bytes.Err? {
        return Err(bytes.error);
      }
      match FromUtf8(bytes.value)
      case Ok(text) => r := Ok(text);
      case Err(_) => r := Err(InvalidStringUtf8);
    }

    method ReadMetadataValue(t: ValueType) returns (r: Result<Value, GgufError>)
      requires position <= |file|
      modifies this`position
      ensures position <= |file|
      ensures Agrees(r, file[position..], ReadScalar(t, old(file[position..])))
    {
      if t.ArrayT? {
        return Err(General);
      }
      if t.StringT? {
        var text := ReadText();
        if text.Err? {
          return Err(text.error);
        }
        return Ok(String(text.value));
      }
      var n := ReadUnsigned(ScalarWidth(t));
      if n.Err? {
        return Err(n.error);
      }
      return Ok(ScalarOf(t, n.value));
    }

    method ReadType() returns (r: Result<ValueType, GgufError>)
      requires position <= |file|
      modifies this`position
      ensures position <= |file|
      ensures Agrees(r, file[position..], ReadTypeCode(old(file[position..])))
    {
      var code := ReadUnsigned(4);
      if code.Err? {
        return Err(code.error);
      }
      match TypeOfCode(code.value)
      case None => r := Err(InvalidMetadataType(code.value));
      case Some(t) => r := Ok(t);
    }

    method ReadArrayElements(t: ValueType, n: nat) returns (r: Result<seq<Value>, GgufError>)
      requires position <= |file|
      modifies this`position
      ensures position <= |file|
      ensures Agrees(r, file[position..], ReadElements(t, n, old(file[position..])))
    {
      hide ReadScalar, ReadElements, Prepended;
      var values: seq<Value> := [];
      ghost var start := file[position..];
      PrependedNone(ReadElements(t, n, start));
      for i := 0 to n
        invariant position <= |file|
        invariant ReadElements(t, n, start) == Prepended(values, ReadElements(t, n - i, file[position..]))
      {
        ElementsTurn(values, t, n - i, file[position..]);
        var value := ReadMetadataValue(t);
        if value.Err? {
          return Err(value.error);
        }
        values := values + [value.value];
      }
      ElementsEnd(values, t, file[position..]);
      return Ok(values);
    }

    method ReadArrayValue() returns (r: Result<Value, GgufError>)
      requires position <= |file|
      modifies this`position
      ensures position <= |file|
      ensures Agrees(r, file[position..], ReadArray(old(file[position..])))
    {
      var t := ReadType();
      if t.Err? {
        return Err(t.error);
      }
      if t.value.ArrayT? {
        return Err(General);
      }
      var n := ReadUnsigned(8);
      if n.Err? {
        return Err(n.error);
      }
      if n.value > MAX_ARRAY_LEN {
        return Err(General);
      }
      var values := ReadArrayElements(t.value, n.value);
      if values.Err? {
        return Err(values.error);
      }
      return Ok(Array(t.value, values.value));
    }

    method ReadTypedValue() returns (r: Result<Value, GgufError>)
      requires position <= |file|
      modifies this`position
      ensures position <= |file|
      ensures Agrees(r, file[position..], ReadValue(old(file[position..])))
    {
      var t := ReadType();
      if t.Err? {
        return Err(t.error);
      }
      if t.value.ArrayT? {
        r := ReadArrayValue();
      } else {
        r := ReadMetadataValue(t.value);
      }
    }

    method ReadOneEntry(metadata: map<string, Value>) returns (r: Result<map<string, Value>, GgufError>)
      requires position <= |file|
      modifies this`position
      ensures position <= |file|
      ensures Agrees(r, file[position..], ReadEntry(old(file[position..]), metadata))
    {
      hide ReadString, ReadValue;
      var key := ReadText();
      if key.Err? {
        return Err(key.error);
      }
      var value := ReadTypedValue();
      if value.Err? {
        return Err(value.error);
      }
      return Ok(metadata[key.value := value.value]);
    }

    /** One turn of the metadata loop, with `n` entries to go. */
    method NextEntry(metadata: map<string, Value>, ghost n: nat) returns (r: Result<map<string, Value>, GgufError>)
      requires position <= |file| && n > 0
      modifies this`position
      ensures position <= |file|
      ensures r.Ok? ==> ReadMetadata(n, old(file[position..]), metadata) == ReadMetadata(n - 1, file[position..], r.value)
      ensures r.Err? ==> ReadMetadata(n, old(file[position..]), metadata) == Fail(r.error)
    {
      hide ReadEntry, ReadMetadata;
      EntryTurn(n, file[position..], metadata);
      r := ReadOneEntry(metadata);
    }

    method ReadEntries(n: nat) returns (r: Result<map<string, Value>, GgufError>)
      requires position <= |file|
      modifies this`position
      ensures position <= |file|
      ensures Agrees(r, file[position..], ReadMetadata(n, old(file[position..]), map[]))
    {
      hide ReadEntry, ReadMetadata;
      var metadata: map<string, Value> := map[];
      ghost var start := file[position..];
      for i := 0 to n
        invariant position <= |file|
        invariant ReadMetadata(n, start, map[]) == ReadMetadata(n - i, file[position..], metadata)
      {
        r := NextEntry(metadata, n - i);
        if r.Err? {
          return;
        }
        metadata := r.value;
      }
      NoEntries(file[position..], metadata);
      r := Ok(metadata);
    }

    method ReadDimensions(n: nat) returns (r: Result<seq<nat>, GgufError>)
      requires position <= |file|
      modifies this`position
      ensures position <= |file|
      ensures Agrees(r, file[position..], ReadDims(n, old(file[position..])))
    {
      hide ReadNat, ReadDims, Prepended;
      var dims: seq<nat> := [];
      ghost var start := file[position..];
      PrependedNone(ReadDims(n, start));
      for i := 0 to n
        invariant position <= |file|
        invariant ReadDims(n, start) == Prepended(dims, ReadDims(n - i, file[position..]))
      {
        DimsTurn(dims, n - i, file[position..]);
        var d := ReadUnsigned(8);
        if d.Err? {
          return Err(d.error);
        }
        dims := dims + [d.value];
      }
      DimsEnd(dims, file[position..]);
      return Ok(dims);
    }

    method ReadTensorInfo() returns (r: Result<Info, GgufError>)
      requires position <= |file|
      modifies this`position
      ensures position <= |file|
      ensures Agrees(r, file[position..], ReadInfo(old(file[position..])))
    {
      var name := ReadText();
      if name.Err? {
        return Err(name.error);
      }
      var n := ReadUnsigned(4);
      if n.Err? {
        return Err(n.error);
      }
      if n.value > MAX_DIMENSIONS {
        return Err(InvalidDimensionsCount(n.value));
      }
      var dims := ReadDimensions(n.value);
      if dims.Err? {
        return Err(dims.error);
      }
      var typeCode := ReadUnsigned(4);
      if typeCode.Err? {
        return Err(typeCode.error);
      }
      var offset := ReadUnsigned(8);
      if offset.Err? {
        return Err(offset.error);
      }
      return Ok(Info(name.value, dims.value, typeCode.value, offset.value));
    }

    /** One turn of the tensor loop, with `n` infos to go. */
    method NextInfo(infos: seq<Info>, ghost n: nat) returns (r: Result<seq<Info>, GgufError>)
      requires position <= |file| && n > 0
      modifies this`position
      ensures position <= |file|
      ensures r.Ok? ==>
        Prepended(infos, ReadInfos(n, old(file[position..]))) == Prepended(r.value, ReadInfos(n - 1, file[position..]))
      ensures r.Err? ==> Prepended(infos, ReadInfos(n, old(file[position..]))) == Fail(r.error)
    {
      hide ReadInfo, ReadInfos, Prepended;
      InfosTurn(infos, n, file[position..]);
      var info := ReadTensorInfo();
      match info
      case Err(e) => r := Err(e);
      case Ok(value) => r := Ok(infos + [value]);
    }

    method ReadTensorInfos(n: nat) returns (r: Result<seq<Info>, GgufError>)
      requires position <= |file|
      modifies this`position
      ensures position <= |file|
      ensures Agrees(r, file[position..], ReadInfos(n, old(file[position..])))
    {
      hide ReadInfo, ReadInfos, Prepended;
      var infos: seq<Info> := [];
      ghost var start := file[position..];
      PrependedNone(ReadInfos(n, start));
      for i := 0 to n
        invariant position <= |file|
        invariant ReadInfos(n, start) == Prepended(infos, ReadInfos(n - i, file[position..]))
      {
        r := NextInfo(infos, n - i);
        if r.Err? {
          return;
        }
        infos := r.value;
      }
      InfosEnd(infos, file[position..]);
      r := Ok(infos);
    }
  }

  /** What reading more items amounts to after some have been read. */
  function Prepended<T>(items: seq<T>, read: Read<seq<T>>): Read<seq<T>> {
    match read
    case Fail(e) => Fail(e)
    case Got(more, rest) => Got(items + more, rest)
  }

  lemma {:induction false} PrependedNone<T>(read: Read<seq<T>>)
    ensures Prepended([], read) == read
  {
    if read.Got? {
      assert [] + read.value == read.value;
    }
  }

  lemma {:induction false} Pushed<T>(items: seq<T>, item: T, read: Read<seq<T>>)
    ensures Prepended(items + [item], read) == Prepended(items, Prepended([item], read))
  {
    if read.Got? {
      Prepend(items, [item], read.value);
    }
  }

  /** One turn of each loop: the item read joins those before, or the failure is the outcome. */
  lemma {:induction false} ElementsTurn(values: seq<Value>, t: ValueType, n: nat, s: seq<byte>)
    requires n > 0
    ensures
      match ReadScalar(t, s)
      case Fail(e) => Prepended(values, ReadElements(t, n, s)) == Fail(e)
      case Got(v, rest) => Prepended(values, ReadElements(t, n, s)) == Prepended(values + [v], ReadElements(t, n - 1, rest))
  {
    hide ReadScalar;
    match ReadScalar(t, s)
    case Fail(e) =>
    case Got(v, rest) =>
      assert ReadElements(t, n, s) == Prepended([v], ReadElements(t, n - 1, rest));
      Pushed(values, v, ReadElements(t, n - 1, rest));
  }

  lemma {:induction false} ElementsEnd(values: seq<Value>, t: ValueType, s: seq<byte>)
    ensures Prepended(values, ReadElements(t, 0, s)) == Got(values, s)
  {
    assert values + [] == values;
  }

  lemma {:induction false} DimsTurn(dims: seq<nat>, n: nat, s: seq<byte>)
    requires n > 0
    ensures
      match ReadNat(s, 8)
      case Fail(e) => Prepended(dims, ReadDims(n, s)) == Fail(e)
      case Got(d, rest) => Prepended(dims, ReadDims(n, s)) == Prepended(dims + [d], ReadDims(n - 1, rest))
  {
    hide ReadNat;
    match ReadNat(s, 8)
    case Fail(e) =>
    case Got(d, rest) =>
      assert ReadDims(n, s) == Prepended([d], ReadDims(n - 1, rest));
      Pushed(dims, d, ReadDims(n - 1, rest));
  }

  lemma {:induction false} DimsEnd(dims: seq<nat>, s: seq<byte>)
    ensures Prepended(dims, ReadDims(0, s)) == Got(dims, s)
  {
    assert dims + [] == dims;
  }

  lemma {:induction false} InfosTurn(infos: seq<Info>, n: nat, s: seq<byte>)
    requires n > 0
    ensures
      match ReadInfo(s)
      case Fail(e) => Prepended(infos, ReadInfos(n, s)) == Fail(e)
      case Got(info, rest) => Prepended(infos, ReadInfos(n, s)) == Prepended(infos + [info], ReadInfos(n - 1, rest))
  {
    hide ReadInfo;
    match ReadInfo(s)
    case Fail(e) =>
    case Got(info, rest) =>
      assert ReadInfos(n, s) == Prepended([info], ReadInfos(n - 1, rest));
      Pushed(infos, info, ReadInfos(n - 1, rest));
  }

  lemma {:induction false} InfosEnd(infos: seq<Info>, s: seq<byte>)
    ensures Prepended(infos, ReadInfos(0, s)) == Got(infos, s)
  {
    assert infos + [] == infos;
  }

  lemma {:induction false} EntryTurn(n: nat, s: seq<byte>, metadata: map<string, Value>)
    requires n > 0
    ensures ReadEntry(s, metadata).Fail? ==> ReadMetadata(n, s, metadata) == Fail(ReadEntry(s, metadata).error)
    ensures ReadEntry(s, metadata).Got? ==>
      ReadMetadata(n, s, metadata) == ReadMetadata(n - 1, ReadEntry(s, metadata).rest, ReadEntry(s, metadata).value)
  {
    hide ReadEntry;
  }

  lemma {:induction false} NoEntries(s: seq<byte>, metadata: map<string, Value>)
    ensures ReadMetadata(0, s, metadata) == Got(metadata, s)
  {}

  /** `parse_gguf_file` on the bytes of a file. */
  method ParseGgufFile(file: seq<byte>) returns (r: Result<Model, GgufError>)
    ensures r == ParseGguf(file)
    ensures r.Ok? ==>
      && ReadHeader(file).Got? && |r.value.tensors| == |ReadHeader(file).value.infos|
      && IsAlignment(r.value.metadata, r.value.alignment)
      && forall i :: 0 <= i < |r.value.tensors| ==>
        Describes(r.value.tensors[i], ReadHeader(file).value.infos[i], r.value.dataStart)
  {
    hide ReadCounts, ReadNat, ModelOf, Describes, IsAlignment;
    if ReadHeader(file).Got? {
      ParsedDescribes(file);
    }
    var reader := new Reader(file);
    assert file[0..] == file;
    var magic := reader.ReadExactBytes(4);
    if magic.Err? {
      return Err(magic.error);
    }
    if magic.value != MAGIC {
      return Err(InvalidMagic);
    }
    var version := reader.ReadUnsigned(4);
    if version.Err? {
      return Err(version.error);
    }
    if version.value != 1 && version.value != 2 && version.value != 3 {
      return Err(UnsupportedVersion(version.value));
    }
    var header := ReadRest(reader, version.value);
    if header.Err? {
      return Err(header.error);
    }
    return Ok(ModelOf(header.value, reader.position));
  }

  /** The counts, their limits, and what they count. */
  method ReadRest(reader: Reader, version: nat) returns (r: Result<Header, GgufError>)
    requires reader.position <= |reader.file|
    modifies reader`position
    ensures reader.position <= |reader.file|
    ensures Agrees(r, reader.file[reader.position..], ReadCounts(version, old(reader.file[reader.position..])))
  {
    var tensorCount := reader.ReadUnsigned(8);
    if tensorCount.Err? {
      return Err(tensorCount.error);
    }
    var kvCount := reader.ReadUnsigned(8);
    if kvCount.Err? {
      return Err(kvCount.error);
    }
    if tensorCount.value > MAX_TENSOR_COUNT {
      return Err(General);
    }
    if kvCount.value > MAX_KV_COUNT {
      return Err(General);
    }
    var metadata := reader.ReadEntries(kvCount.value);
    if metadata.Err? {
      return Err(metadata.error);
    }
    var infos := reader.ReadTensorInfos(tensorCount.value);
    if infos.Err? {
      return Err(infos.error);
    }
    return Ok(Header(version, metadata.value, infos.value));
  }

  /** A written header followed by any payload parses to exactly what was written. */
  method ParseWritten(h: Layout, payload: seq<byte>) returns (model: Model)
    requires LayoutFits(h) && DistinctKeys(h.entries)
    ensures model.version == h.version
    ensures forall i :: 0 <= i < |h.entries| ==>
      h.entries[i].key in model.metadata && model.metadata[h.entries[i].key] == h.entries[i].value
    ensures forall key :: key in model.metadata ==> exists i :: 0 <= i < |h.entries| && h.entries[i].key == key
    ensures |PrintLayout(h)| + |payload| <= MAX_POSITION ==> StartsAfter(model.dataStart, |PrintLayout(h)|, model.alignment)
    ensures model.tensors == DescribeAll(h.infos, model.dataStart)
    ensures forall i :: 0 <= i < |h.infos| ==> Describes(model.tensors[i], h.infos[i], model.dataStart)
    ensures IsAlignment(model.metadata, model.alignment)
  {
    hide Describes, IsAlignment;
    ParseInverts(h, payload);
    AlignmentOfExactly(Inserted(h.entries, map[]));
    var r := ParseGgufFile(PrintLayout(h) + payload);
    model := r.value;
    if |PrintLayout(h)| + |payload| <= MAX_POSITION {
      HeaderRead(h, payload);
      ParsedDataSection(PrintLayout(h) + payload);
    }
    forall i | 0 <= i < |h.infos| ensures Describes(model.tensors[i], h.infos[i], model.dataStart) {
      DescribeDescribes(h.infos[i], model.dataStart);
    }
    forall i | 0 <= i < |h.entries|
      ensures h.entries[i].key in model.metadata && model.metadata[h.entries[i].key] == h.entries[i].value
    {
      InsertedExactly(h.entries, map[], h.entries[i].key);
    }
    forall key | key in model.metadata ensures exists i :: 0 <= i < |h.entries| && h.entries[i].key == key {
      InsertedExactly(h.entries, map[], key);
    }
  }
}
