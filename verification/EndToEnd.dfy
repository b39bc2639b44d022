/**
 * From a file's bytes to a tensor's bytes: headers that are written, parsed, assembled and opened
 * read back the payload, and a layer's planned ranges read every tensor of the layer.
 */
module EndToEnd {
  import opened Prelude
  import Assembly
  import DataSource
  import Gguf
  import Planner
  import Utf8
  import ReadPlan

  // ---------------------------------------------------------------------------------------------
  // Parsed files as shards
  // ---------------------------------------------------------------------------------------------

  /** The parsed numbers are 64-bit numbers. */
  predicate DescriptorFits(d: Gguf.Descriptor) {
    d.offset <= U64_MAX && d.fileOffset <= U64_MAX && (d.byteLength.Some? ==> d.byteLength.value <= U64_MAX)
  }

  predicate ModelFits(model: Gguf.Model) {
    && model.dataStart <= U64_MAX
    && (forall i :: 0 <= i < |model.tensors| ==> DescriptorFits(model.tensors[i]))
    && (forall key :: key in model.metadata ==> Gguf.NumberFits(model.metadata[key]))
  }

  function StoredAs(d: Gguf.Descriptor): Assembly.Tensor
    requires DescriptorFits(d)
  {
    var byteLength: Option<u64> := if d.byteLength.Some? then Some(d.byteLength.value) else None;
    Assembly.Tensor(d.name, d.offset, d.fileOffset, byteLength)
  }

  function MetaOf(metadata: map<string, Gguf.Value>, key: string): Assembly.Meta
    requires forall other :: other in metadata ==> Gguf.NumberFits(metadata[other])
  {
    if key !in metadata then Assembly.Absent
    else
      assert Gguf.NumberFits(metadata[key]);
      match Gguf.AsU64(metadata[key])
      case None => Assembly.NotUnsigned
      case Some(n) => Assembly.Value(n)
  }

  function TextOf(metadata: map<string, Gguf.Value>, key: string): Option<string> {
    if key in metadata && metadata[key].String? then Some(metadata[key].text) else None
  }

  function StoredAll(ds: seq<Gguf.Descriptor>): (tensors: seq<Assembly.Tensor>)
    requires forall i :: 0 <= i < |ds| ==> DescriptorFits(ds[i])
    ensures |tensors| == |ds| && forall i :: 0 <= i < |ds| ==> tensors[i] == StoredAs(ds[i])
  {
    if ds == [] then [] else StoredAll(ds[..|ds| - 1]) + [StoredAs(ds[|ds| - 1])]
  }

  /** What set assembly sees of a parsed file. */
  function ShardOf(model: Gguf.Model, fileSize: u64): (shard: Assembly.Shard)
    requires ModelFits(model)
    ensures |shard.tensors| == |model.tensors|
    ensures forall i :: 0 <= i < |model.tensors| ==> shard.tensors[i] == StoredAs(model.tensors[i])
  {
    Assembly.Shard(
      fileSize, model.dataStart, StoredAll(model.tensors),
      MetaOf(model.metadata, "split.count"), MetaOf(model.metadata, "split.no"),
      MetaOf(model.metadata, "split.tensors.count"),
      TextOf(model.metadata, "general.name"), TextOf(model.metadata, "general.architecture"))
  }

  /** Every file that parses is a shard. */
  lemma {:induction false} ParsedFits(file: seq<byte>)
    requires |file| <= Gguf.MAX_POSITION && Gguf.ParseGguf(file).Ok?
    ensures ModelFits(Gguf.ParseGguf(file).value)
  {
    hide Gguf.ReadHeader, Gguf.NumElements, Gguf.StartsAfter, Gguf.AlignOffset, Gguf.AlignmentOf, Gguf.DescribeAll;
    Gguf.ParsedDataSection(file);
    Gguf.ReadHeaderFits(file);
    var h, model := Gguf.ReadHeader(file).value, Gguf.ParseGguf(file).value;
    forall i | 0 <= i < |model.tensors| ensures DescriptorFits(model.tensors[i]) {
      assert model.tensors[i] == Gguf.Describe(h.infos[i], model.dataStart);
    }
  }

  // ---------------------------------------------------------------------------------------------
  // Written, parsed, assembled, opened and read
  // ---------------------------------------------------------------------------------------------

  /** A file as it is written: a header and a payload. */
  datatype Written = Written(header: Gguf.Layout, payload: seq<byte>) {
    function Bytes(): seq<byte>
      requires Gguf.LayoutFits(header)
    {
      Gguf.PrintLayout(header) + payload
    }
  }

  /** Within the parser's limits, and no longer than a file can be. */
  ghost predicate WrittenFits(w: Written) {
    match w
    case Written(header, _) => Gguf.LayoutFits(header) && |w.Bytes()| <= Gguf.MAX_POSITION
  }

  ghost function HeaderLength(w: Written): (n: nat)
    requires WrittenFits(w)
    ensures n + |w.payload| <= Gguf.MAX_POSITION
  {
    |Gguf.PrintLayout(w.header)|
  }

  ghost function FileOf(w: Written): (file: seq<byte>)
    requires WrittenFits(w)
    ensures |file| == HeaderLength(w) + |w.payload|
  {
    w.Bytes()
  }

  /** What parsing a written file gives. */
  ghost function Model(w: Written): (model: Gguf.Model)
    requires WrittenFits(w)
    ensures ModelFits(model) && HeaderLength(w) <= model.dataStart && |model.tensors| == |w.header.infos|
  {
    Gguf.ParseInverts(w.header, w.payload);
    ParsedFits(w.Bytes());
    Gguf.HeaderRead(w.header, w.payload);
    Gguf.ParsedDataSection(w.Bytes());
    Gguf.ParseGguf(w.Bytes()).value
  }

  lemma {:induction false} ModelIs(w: Written)
    requires WrittenFits(w)
    ensures Gguf.ParseGguf(w.Bytes()) == Ok(Model(w))
    ensures Model(w) == Gguf.ModelOf(Gguf.Header(w.header.version, Gguf.Inserted(w.header.entries, map[]), w.header.infos),
                                     HeaderLength(w))
    ensures Model(w).tensors == Gguf.DescribeAll(w.header.infos, Model(w).dataStart)
  {
    hide Gguf.PrintLayout, Gguf.ParseGguf, Gguf.LayoutFits;
    Gguf.ParseInverts(w.header, w.payload);
  }

  /** What set assembly sees of a written file. */
  ghost function ShardFrom(w: Written): (shard: Assembly.Shard)
    requires WrittenFits(w)
    ensures shard.fileSize == |FileOf(w)| && shard.dataStart == Model(w).dataStart && |shard.tensors| == |w.header.infos|
  {
    ShardOf(Model(w), |FileOf(w)|)
  }

  /** What entries say of an unsigned number under a key: nothing, something else, or the number. */
  ghost predicate SaysNumber(entries: seq<Gguf.Entry>, key: string, meta: Assembly.Meta) {
    && ((forall i :: 0 <= i < |entries| ==> entries[i].key != key) ==> meta == Assembly.Absent)
    && forall i :: 0 <= i < |entries| && entries[i].key == key ==>
      var v := entries[i].value;
      && (v.Float32? || v.Float64? || v.Bool? || v.String? || v.Array? ==> meta == Assembly.NotUnsigned)
      && (forall n :: 0 <= n <= U64_MAX && Gguf.IsInteger(v, n) ==> meta == Assembly.Value(n))
  }

  ghost predicate SaysText(entries: seq<Gguf.Entry>, key: string, text: Option<string>) {
    && ((forall i :: 0 <= i < |entries| ==> entries[i].key != key) ==> text == None)
    && forall i :: 0 <= i < |entries| && entries[i].key == key ==>
      text == if entries[i].value.String? then Some(entries[i].value.text) else None
  }

  lemma {:induction false} MetaSays(entries: seq<Gguf.Entry>, key: string)
    requires Gguf.DistinctKeys(entries)
    requires forall other :: other in Gguf.Inserted(entries, map[]) ==> Gguf.NumberFits(Gguf.Inserted(entries, map[])[other])
    ensures SaysNumber(entries, key, MetaOf(Gguf.Inserted(entries, map[]), key))
    ensures SaysText(entries, key, TextOf(Gguf.Inserted(entries, map[]), key))
  {
    hide Gguf.Inserted, Gguf.DistinctKeys;
    var metadata := Gguf.Inserted(entries, map[]);
    Gguf.InsertedExactly(entries, map[], key);
    forall i | 0 <= i < |entries| && entries[i].key == key
      ensures forall n :: 0 <= n <= U64_MAX && Gguf.IsInteger(entries[i].value, n) ==> MetaOf(metadata, key) == Assembly.Value(n)
    {
      forall n | 0 <= n <= U64_MAX && Gguf.IsInteger(entries[i].value, n)
        ensures Gguf.AsU64(entries[i].value) == Some(n)
      {
      }
    }
  }

  /** Set assembly sees of a written file just what its header says. */
  lemma {:induction false} ShardSays(w: Written)
    requires WrittenFits(w) && Gguf.DistinctKeys(w.header.entries)
    ensures
      var shard, entries := ShardFrom(w), w.header.entries;
      && SaysNumber(entries, "split.count", shard.splitCount) && SaysNumber(entries, "split.no", shard.splitNo)
      && SaysNumber(entries, "split.tensors.count", shard.splitTensors)
      && SaysText(entries, "general.name", shard.name) && SaysText(entries, "general.architecture", shard.architecture)
    ensures forall i :: 0 <= i < |w.header.infos| ==>
      var info, tensor := w.header.infos[i], ShardFrom(w).tensors[i];
      && tensor.name == info.name && tensor.offset == info.offset
      && tensor.fileOffset == (ShardFrom(w).dataStart + info.offset) % 0x1_0000_0000_0000_0000
  {
    hide Gguf.PrintLayout, Gguf.LayoutFits, Gguf.ParseGguf, Gguf.Inserted, Gguf.DistinctKeys, SaysNumber, SaysText, MetaOf, TextOf,
         Model, Gguf.AlignmentOf, Gguf.AlignOffset, Gguf.NumElements, Gguf.ByteLength, Gguf.NumberFits;
    ModelIs(w);
    var entries := w.header.entries;
    MetaSays(entries, "split.count");
    MetaSays(entries, "split.no");
    MetaSays(entries, "split.tensors.count");
    MetaSays(entries, "general.name");
    MetaSays(entries, "general.architecture");
    forall i | 0 <= i < |w.header.infos|
      ensures ShardFrom(w).tensors[i] == StoredAs(Model(w).tensors[i])
      ensures Model(w).tensors[i] == Gguf.Describe(w.header.infos[i], Model(w).dataStart)
    {
    }
  }

  /** The tensor of info `i`, as set assembly sees it. */
  ghost function TensorOf(w: Written, i: nat): (tensor: Assembly.Tensor)
    requires WrittenFits(w) && i < |w.header.infos|
    ensures tensor == ShardFrom(w).tensors[i]
  {
    StoredAs(Model(w).tensors[i])
  }

  lemma {:induction false} InfosFit(w: Written, i: nat)
    requires WrittenFits(w) && i < |w.header.infos|
    ensures w.header.infos[i].offset <= U64_MAX
  {
    hide Gguf.ReadHeader;
    Gguf.HeaderRead(w.header, w.payload);
    Gguf.ReadHeaderFits(w.Bytes());
  }

  /** Where info `i` puts its tensor: in the data section exactly when its offset does not wrap. */
  lemma {:induction false} TensorInData(w: Written, i: nat)
    requires WrittenFits(w) && i < |w.header.infos|
    ensures Model(w).dataStart <= TensorOf(w, i).fileOffset <==> Model(w).dataStart + w.header.infos[i].offset <= U64_MAX
    ensures Model(w).dataStart + w.header.infos[i].offset <= U64_MAX ==>
      TensorOf(w, i).fileOffset == Model(w).dataStart + w.header.infos[i].offset
  {
    hide Gguf.PrintLayout, Gguf.ParseGguf, Gguf.LayoutFits, Gguf.ModelOf, Gguf.ByteLength, Gguf.NumElements;
    InfosFit(w, i);
    ModelIs(w);
    assert Model(w).tensors[i] == Gguf.Describe(w.header.infos[i], Model(w).dataStart);
    Gguf.DescribedInData(w.header.infos[i], Model(w).dataStart);
  }

  /** The tensor's part of the payload: its offset counts from the data start. */
  ghost predicate IsPayload(w: Written, i: nat, bytes: seq<byte>)
    requires WrittenFits(w) && i < |w.header.infos|
  {
    var from_ := Model(w).dataStart - HeaderLength(w) + w.header.infos[i].offset;
    && TensorOf(w, i).byteLength == Some(|bytes|)
    && from_ + |bytes| <= |w.payload| && bytes == w.payload[from_..from_ + |bytes|]
  }

  /** The own bytes of a parsed tensor are its part of the payload. */
  lemma {:induction false} FileSliceIsPayload(w: Written, i: nat, bytes: seq<byte>)
    requires WrittenFits(w) && i < |w.header.infos|
    requires Model(w).dataStart + w.header.infos[i].offset <= U64_MAX
    requires DataSource.IsFileSlice(ShardFrom(w), FileOf(w), TensorOf(w, i), bytes)
    ensures IsPayload(w, i, bytes)
  {
    hide Gguf.PrintLayout, Gguf.LayoutFits, ShardFrom, Model, TensorOf, ModelFits;
    TensorInData(w, i);
    SkipFront(Gguf.PrintLayout(w.header), w.payload, TensorOf(w, i).fileOffset, |bytes|);
  }

  lemma {:induction false} SkipFront<T>(a: seq<T>, b: seq<T>, at: nat, n: nat)
    requires |a| <= at && at + n <= |a| + |b|
    ensures (a + b)[at..at + n] == b[at - |a|..at - |a| + n]
  {}

  /** A tensor whose offset wraps has no part of the payload. */
  lemma {:induction false} WrappedHasNoPayload(w: Written, i: nat, bytes: seq<byte>)
    requires WrittenFits(w) && i < |w.header.infos|
    requires Model(w).dataStart + w.header.infos[i].offset > U64_MAX
    ensures !IsPayload(w, i, bytes)
  {
    hide WrittenFits, HeaderLength, ShardFrom, Model, TensorOf, ModelFits;
  }

  /** The bytes are the tensor's part of the payload exactly when its offset does not wrap past 64 bits. */
  ghost predicate PayloadUnlessWrapped(w: Written, i: nat, bytes: seq<byte>)
    requires WrittenFits(w) && i < |w.header.infos|
  {
    IsPayload(w, i, bytes) <==> Model(w).dataStart + w.header.infos[i].offset <= U64_MAX
  }

  /**
   * Tensor `i` of written file `k` reads as its part of that file's payload, through one file or an
   * assembled set, exactly when its offset does not wrap past 64 bits.
   */
  method ReadWrittenTensor(source: DataSource.GgufDataSource, tensors: seq<Assembly.Tensor>, ghost shards: seq<Assembly.Shard>,
                           ghost files: seq<seq<byte>>, ghost w: Written, ghost k: nat, ghost i: nat, index: nat)
    returns (r: Result<seq<byte>, DataSource.SourceError>)
    requires source.Valid() && DataSource.OpenedOn(source, shards, files) && DataSource.Assembled(shards)
    requires tensors == DataSource.MergedTensors(shards, |shards|)
    requires k < |shards| && WrittenFits(w) && files[k] == FileOf(w) && shards[k] == ShardFrom(w)
    requires i < |w.header.infos| && index == DataSource.MergedIndex(shards, k, i) < |tensors|
    modifies source.states
    ensures source.Valid()
    ensures r.Ok? ==> PayloadUnlessWrapped(w, i, r.value)
    ensures source.Reliable() && source.Readable(DataSource.Remapped(shards, k, TensorOf(w, i))) ==> r.Ok?
  {
    hide DataSource.OpenedOn, DataSource.Assembled, DataSource.MergedTensors, WrittenFits, HeaderLength, FileOf, ShardFrom,
         Model, ModelFits;
    r := DataSource.ReadShardTensor(source, tensors, shards, files, k, i, index);
    if r.Ok? {
      TensorInData(w, i);
      if Model(w).dataStart + w.header.infos[i].offset > U64_MAX {
        WrappedHasNoPayload(w, i, r.value);
      } else {
        FileSliceIsPayload(w, i, r.value);
      }
    }
  }

  // ---------------------------------------------------------------------------------------------
  // Whatever the payloads hold
  // ---------------------------------------------------------------------------------------------

  ghost predicate AllFit(ws: seq<Written>) {
    forall m :: 0 <= m < |ws| ==> WrittenFits(ws[m])
  }

  /** The same headers, with payloads of the same lengths. */
  ghost predicate SameShape(ws: seq<Written>, vs: seq<Written>) {
    && |vs| == |ws|
    && forall m :: 0 <= m < |ws| ==> vs[m].header == ws[m].header && |vs[m].payload| == |ws[m].payload|
  }

  ghost function FilesOf(ws: seq<Written>): (files: seq<seq<byte>>)
    requires AllFit(ws)
    ensures |files| == |ws|
  {
    if ws == [] then [] else FrontFits(ws); FilesOf(ws[..|ws| - 1]) + [FileOf(ws[|ws| - 1])]
  }

  lemma {:induction false} FrontFits(ws: seq<Written>)
    requires AllFit(ws) && ws != []
    ensures AllFit(ws[..|ws| - 1]) && WrittenFits(ws[|ws| - 1])
  {
    hide WrittenFits;
  }

  lemma {:induction false} AllFitAt(ws: seq<Written>, m: nat)
    requires AllFit(ws) && m < |ws|
    ensures WrittenFits(ws[m])
  {
    hide WrittenFits;
  }

  lemma {:induction false} FilesOfAt(ws: seq<Written>, m: nat)
    requires AllFit(ws) && m < |ws|
    ensures WrittenFits(ws[m]) && FilesOf(ws)[m] == FileOf(ws[m])
  {
    hide FileOf, WrittenFits, Model, HeaderLength, ModelFits, AllFit;
    FrontFits(ws);
    AllFitAt(ws, m);
    if m < |ws| - 1 {
      FilesOfAt(ws[..|ws| - 1], m);
    }
  }

  ghost function ShardsOf(ws: seq<Written>): (shards: seq<Assembly.Shard>)
    requires AllFit(ws)
    ensures |shards| == |ws|
  {
    if ws == [] then [] else FrontFits(ws); ShardsOf(ws[..|ws| - 1]) + [ShardFrom(ws[|ws| - 1])]
  }

  lemma {:induction false} ShardsOfAt(ws: seq<Written>, m: nat)
    requires AllFit(ws) && m < |ws|
    ensures WrittenFits(ws[m]) && ShardsOf(ws)[m] == ShardFrom(ws[m])
  {
    hide ShardFrom, WrittenFits, Model, HeaderLength, ModelFits, AllFit;
    FrontFits(ws);
    AllFitAt(ws, m);
    if m < |ws| - 1 {
      ShardsOfAt(ws[..|ws| - 1], m);
    }
  }

  /** Shards depend on headers and lengths alone. */
  lemma {:induction false} ShapeGivesShard(w: Written, v: Written)
    requires WrittenFits(w) && v.header == w.header && |v.payload| == |w.payload|
    ensures WrittenFits(v) && Model(v) == Model(w) && |FileOf(v)| == |FileOf(w)| && ShardFrom(v) == ShardFrom(w)
  {
    hide Gguf.PrintLayout, Gguf.ParseGguf, Gguf.LayoutFits, Gguf.ModelOf, Model;
    ModelIs(w);
    ModelIs(v);
  }

  lemma {:induction false} ShapeGivesShards(ws: seq<Written>, vs: seq<Written>)
    requires AllFit(ws) && SameShape(ws, vs)
    ensures AllFit(vs) && ShardsOf(vs) == ShardsOf(ws)
    ensures ws != [] ==> DataSource.Backed(ShardsOf(ws), FilesOf(vs)) && DataSource.Fits(FilesOf(vs), DataSource.Layouts(ShardsOf(ws)))
  {
    hide WrittenFits, FileOf, ShardFrom, Model, DataSource.Fits, DataSource.Layouts, ShardsOf, FilesOf;
    forall m | 0 <= m < |vs| ensures WrittenFits(vs[m]) {
      ShapeGivesShard(ws[m], vs[m]);
    }
    forall m | 0 <= m < |ws| ensures ShardsOf(vs)[m] == ShardsOf(ws)[m] && |FilesOf(vs)[m]| == ShardsOf(ws)[m].fileSize {
      ShapeGivesShard(ws[m], vs[m]);
      ShardsOfAt(ws, m);
      ShardsOfAt(vs, m);
      FilesOfAt(vs, m);
    }
    if ws != [] {
      DataSource.LayoutsFit(ShardsOf(ws), FilesOf(vs));
    }
  }

  /** The tensor's own bytes are read from files of that shape. */
  ghost predicate ReadsOwn(shards: seq<Assembly.Shard>, vs: seq<Written>, k: nat, tensor: Assembly.Tensor)
    requires AllFit(vs) && k < |shards|
    requires DataSource.Backed(shards, FilesOf(vs)) && DataSource.Fits(FilesOf(vs), DataSource.Layouts(shards))
  {
    DataSource.HoldsOwn(shards, FilesOf(vs), k, tensor)
  }

  /** The payload with everything from the data start on replaced. */
  ghost function Refilled(w: Written, v: byte): (r: Written)
    requires WrittenFits(w)
    ensures r.header == w.header && |r.payload| == |w.payload| && WrittenFits(r)
  {
    Written(w.header, FillFrom(w.payload, Model(w).dataStart - |Gguf.PrintLayout(w.header)|, v))
  }

  function FillFrom(payload: seq<byte>, from_: nat, v: byte): (filled: seq<byte>)
    ensures |filled| == |payload|
    ensures forall p :: 0 <= p < |payload| ==> filled[p] == if p < from_ then payload[p] else v
  {
    if payload == [] then []
    else
      var n := |payload| - 1;
      FillFrom(payload[..n], from_, v) + [if n < from_ then payload[n] else v]
  }

  lemma {:induction false} RefilledBytes(w: Written, v: byte)
    requires WrittenFits(w)
    ensures |FileOf(Refilled(w, v))| == |FileOf(w)|
    ensures forall p :: 0 <= p < |FileOf(w)| ==> FileOf(Refilled(w, v))[p] == if p < Model(w).dataStart then FileOf(w)[p] else v
  {
    hide Gguf.PrintLayout, Gguf.ParseGguf, Gguf.LayoutFits, Gguf.ModelOf;
  }

  ghost function RefilledAll(ws: seq<Written>, v: byte): (vs: seq<Written>)
    requires AllFit(ws)
    ensures |vs| == |ws|
  {
    if ws == [] then [] else FrontFits(ws); RefilledAll(ws[..|ws| - 1], v) + [Refilled(ws[|ws| - 1], v)]
  }

  lemma {:induction false} RefilledAllAt(ws: seq<Written>, v: byte, m: nat)
    requires AllFit(ws) && m < |ws|
    ensures WrittenFits(ws[m]) && RefilledAll(ws, v)[m] == Refilled(ws[m], v)
  {
    hide Refilled, WrittenFits, Model, HeaderLength, ModelFits, AllFit;
    FrontFits(ws);
    AllFitAt(ws, m);
    if m < |ws| - 1 {
      RefilledAllAt(ws[..|ws| - 1], v, m);
    }
  }

  /** A tensor before its data section can always be made to read as other bytes by changing data sections alone. */
  lemma {:induction false} RefilledReadsOther(ws: seq<Written>, k: nat, tensor: Assembly.Tensor, v: byte)
    requires |ws| > 1 && k < |ws| && AllFit(ws)
    requires Assembly.InBounds(tensor, |FileOf(ws[k])|) && tensor.byteLength.Some? && tensor.byteLength.value > 0
    requires tensor.fileOffset < Model(ws[k]).dataStart && FileOf(ws[k])[tensor.fileOffset] != v
    ensures SameShape(ws, RefilledAll(ws, v))
    ensures var vs := RefilledAll(ws, v);
            && AllFit(vs)
            && DataSource.Backed(ShardsOf(ws), FilesOf(vs)) && DataSource.Fits(FilesOf(vs), DataSource.Layouts(ShardsOf(ws)))
            && !ReadsOwn(ShardsOf(ws), vs, k, tensor)
  {
    hide WrittenFits, FileOf, Model, DataSource.Fits, DataSource.HoldsOwn, DataSource.Layouts, Refilled, RefilledAll, ShardsOf, FilesOf;
    var vs := RefilledAll(ws, v);
    forall m | 0 <= m < |ws| ensures vs[m].header == ws[m].header && |vs[m].payload| == |ws[m].payload| {
      RefilledAllAt(ws, v, m);
    }
    ShapeGivesShards(ws, vs);
    var shards, files := ShardsOf(ws), FilesOf(vs);
    forall m, p | 0 <= m < |files| && shards[m].dataStart <= p < |files[m]| ensures files[m][p] == v {
      RefilledFile(ws, v, m);
    }
    RefilledFile(ws, v, k);
    DataSource.OutsideHoldsOther(shards, files, k, tensor, v);
  }

  lemma {:induction false} RefilledFile(ws: seq<Written>, v: byte, m: nat)
    requires AllFit(ws) && m < |ws| && AllFit(RefilledAll(ws, v))
    ensures WrittenFits(ws[m]) && ShardsOf(ws)[m].dataStart == Model(ws[m]).dataStart && ShardsOf(ws)[m].fileSize == |FileOf(ws[m])|
    ensures
      var file := FilesOf(RefilledAll(ws, v))[m];
      && |file| == |FileOf(ws[m])|
      && forall p :: 0 <= p < |file| ==> file[p] == if p < Model(ws[m]).dataStart then FileOf(ws[m])[p] else v
  {
    hide WrittenFits, FileOf, Model, Refilled, RefilledAll, ShardsOf, FilesOf;
    RefilledAllAt(ws, v, m);
    RefilledBytes(ws[m], v);
    FilesOfAt(RefilledAll(ws, v), m);
    ShardsOfAt(ws, m);
  }

  /**
   * A readable tensor of several written files reads as its own bytes, whatever the payloads hold,
   * exactly when its offset does not wrap.
   */
  lemma {:induction false} OwnBytesUnlessWrapped(ws: seq<Written>, k: nat, i: nat, tensor: Assembly.Tensor)
    requires |ws| > 1 && k < |ws| && AllFit(ws) && i < |ws[k].header.infos| && tensor == TensorOf(ws[k], i)
    requires Assembly.InBounds(tensor, |FileOf(ws[k])|) && tensor.byteLength.Some? && tensor.byteLength.value > 0
    requires DataSource.Remapped(ShardsOf(ws), k, tensor).fileOffset + tensor.byteLength.value <= DataSource.VirtualSize(ShardsOf(ws))
    ensures
      Model(ws[k]).dataStart + ws[k].header.infos[i].offset <= U64_MAX <==>
      forall vs :: SameShape(ws, vs) ==>
        && AllFit(vs)
        && DataSource.Backed(ShardsOf(ws), FilesOf(vs)) && DataSource.Fits(FilesOf(vs), DataSource.Layouts(ShardsOf(ws)))
        && ReadsOwn(ShardsOf(ws), vs, k, tensor)
  {
    hide WrittenFits, FileOf, Model, DataSource.Fits, DataSource.HoldsOwn, DataSource.Layouts, DataSource.Remapped,
         DataSource.VirtualSize, DataSource.MapsHome, RefilledAll, ShardsOf, FilesOf, TensorOf;
    var shards := ShardsOf(ws);
    ShardsOfAt(ws, k);
    ShapeGivesShard(ws[k], ws[k]);
    TensorInData(ws[k], i);
    if DataSource.StartsInData(shards[k], tensor) {
      DataSource.MapsHomeInData(shards, k, tensor);
      forall vs | SameShape(ws, vs)
        ensures AllFit(vs)
        ensures DataSource.Backed(shards, FilesOf(vs)) && DataSource.Fits(FilesOf(vs), DataSource.Layouts(shards))
        ensures ReadsOwn(shards, vs, k, tensor)
      {
        ShapeGivesShards(ws, vs);
        DataSource.InDataHoldsOwn(shards, FilesOf(vs), k, tensor);
      }
    } else {
      var own := FileOf(ws[k])[tensor.fileOffset];
      RefilledReadsOther(ws, k, tensor, if own == 0 then 1 else 0);
    }
  }

  // ---------------------------------------------------------------------------------------------
  // A set that is written and read wrongly
  // ---------------------------------------------------------------------------------------------

  function SplitEntries(no: nat): seq<Gguf.Entry> {
    [Gguf.Entry("split.count", Gguf.UInt32(2)), Gguf.Entry("split.no", Gguf.UInt32(no)),
     Gguf.Entry("general.architecture", Gguf.String("a"))]
  }

  /** The header of a shard with one tensor of one byte at `offset`. */
  function OneTensor(offset: nat): Gguf.Layout {
    Gguf.Layout(3, SplitEntries(0), [Gguf.Info("t", [1], 24, offset)])
  }

  function NoTensor(): Gguf.Layout {
    Gguf.Layout(3, SplitEntries(1), [])
  }

  lemma {:induction false} ShortText(text: string)
    ensures |Utf8.EncodeAll(text)| <= 4 * |text|
  {
    if text != "" {
      ShortText(text[1..]);
    }
  }

  lemma {:induction false} ShortEntryFits(e: Gguf.Entry)
    requires |e.key| <= 100 && ((e.value.UInt32? && e.value.n < 100) || (e.value.String? && |e.value.text| <= 100))
    ensures Gguf.EntryFits(e)
  {
    hide Utf8.EncodeAll;
    ShortText(e.key);
    if e.value.String? {
      ShortText(e.value.text);
    }
    Gguf.CapacityOf8();
  }

  lemma {:induction false} SplitEntriesFit(no: nat)
    requires no < 2
    ensures forall e :: 0 <= e < 3 ==> Gguf.EntryFits(SplitEntries(no)[e])
  {
    hide Gguf.EntryFits;
    ShortEntryFits(SplitEntries(no)[0]);
    ShortEntryFits(SplitEntries(no)[1]);
    ShortEntryFits(SplitEntries(no)[2]);
  }

  lemma {:induction false} HeadersFit(offset: nat)
    requires offset <= U64_MAX
    ensures Gguf.LayoutFits(OneTensor(offset)) && Gguf.LayoutFits(NoTensor())
  {
    hide Gguf.EntryFits;
    SplitEntriesFit(0);
    SplitEntriesFit(1);
    ShortText("t");
    Gguf.CapacityOf8();
  }

  /** How long the header is does not depend on the offset in it. */
  lemma {:induction false} LengthIgnoresOffset(offset: nat)
    requires offset <= U64_MAX
    ensures Gguf.LayoutFits(OneTensor(0)) && Gguf.LayoutFits(OneTensor(offset))
    ensures |Gguf.PrintLayout(OneTensor(offset))| == |Gguf.PrintLayout(OneTensor(0))|
  {
    hide Gguf.PrintEntries, Gguf.PrintString;
    HeadersFit(0);
    HeadersFit(offset);
    assert |Gguf.PrintInfos(OneTensor(offset).infos)| == |Gguf.PrintInfos(OneTensor(0).infos)|;
  }

  lemma {:induction false} SplitMetadata(no: nat)
    ensures Gguf.Inserted(SplitEntries(no), map[])
         == map["split.count" := Gguf.UInt32(2), "split.no" := Gguf.UInt32(no), "general.architecture" := Gguf.String("a")]
  {
    var es := SplitEntries(no);
    assert es[1..][0] == es[1] && es[1..][1..] == es[2..] && es[2..][0] == es[2] && es[2..][1..] == [];
    var one := map["split.count" := Gguf.UInt32(2)];
    var two := one["split.no" := Gguf.UInt32(no)];
    assert Gguf.Inserted(es, map[]) == Gguf.Inserted(es[1..], one);
    assert Gguf.Inserted(es[1..], one) == Gguf.Inserted(es[2..], two);
    assert Gguf.Inserted(es[2..], two) == Gguf.Inserted([], two["general.architecture" := Gguf.String("a")]);
  }

  lemma {:induction false} ShortString(text: string)
    requires |text| <= 100
    ensures |Gguf.PrintString(text)| <= 408
  {
    ShortText(text);
  }

  lemma {:induction false} ShortEntries(es: seq<Gguf.Entry>)
    requires forall e :: 0 <= e < |es| ==>
      Gguf.EntryFits(es[e]) && |es[e].key| <= 100 && (es[e].value.UInt32? || (es[e].value.String? && |es[e].value.text| <= 100))
    ensures |Gguf.PrintEntries(es)| <= 1000 * |es|
  {
    hide Gguf.EntryFits, Gguf.PrintString;
    if es != [] {
      ShortString(es[0].key);
      ShortValue(es[0]);
      ShortEntries(es[1..]);
    }
  }

  lemma {:induction false} ShortValue(e: Gguf.Entry)
    requires Gguf.EntryFits(e) && (e.value.UInt32? || (e.value.String? && |e.value.text| <= 100))
    ensures Gguf.ValueFits(e.value) && |Gguf.PrintValue(e.value)| <= 500
  {
    hide Gguf.PrintString, Gguf.StringFits;
    if e.value.String? {
      ShortString(e.value.text);
    }
  }

  lemma {:induction false} ShortHeaders()
    ensures Gguf.LayoutFits(OneTensor(0)) && Gguf.LayoutFits(NoTensor())
    ensures 0 < |Gguf.PrintLayout(OneTensor(0))| <= 10000 && 0 < |Gguf.PrintLayout(NoTensor())| <= 10000
  {
    hide Gguf.EntryFits, Gguf.PrintString, Gguf.PrintEntries;
    HeadersFit(0);
    SplitEntriesFit(0);
    SplitEntriesFit(1);
    ShortEntries(SplitEntries(0));
    ShortEntries(SplitEntries(1));
    ShortString("t");
    assert |Gguf.PrintInfos(OneTensor(0).infos)| <= 1000;
    assert |Gguf.PrintInfos(NoTensor().infos)| == 0;
  }

  /** Where the data section of the first file starts. */
  function FirstStart(): nat {
    HeadersFit(0);
    Gguf.AlignOffset(|Gguf.PrintLayout(OneTensor(0))|, 32)
  }

  /** Two files: the offset of the one tensor is 2^64 less the data start, so that its place in the file is 0. */
  function WrappedSet(): seq<Written> {
    HeadersFit(0);
    var front := |Gguf.PrintLayout(OneTensor(0))|;
    var fill := if FirstStart() < front then 0 else FirstStart() - front + 1;
    [Written(OneTensor(Wrapped(0 - FirstStart())), seq(fill, _ => 0)), Written(NoTensor(), [])]
  }

  lemma {:induction false} FirstStartIs()
    ensures Gguf.LayoutFits(OneTensor(0))
    ensures |Gguf.PrintLayout(OneTensor(0))| <= FirstStart() <= 10032 && FirstStart() > 0
    ensures Wrapped(0 - FirstStart()) == 0x1_0000_0000_0000_0000 - FirstStart()
  {
    hide Gguf.PrintLayout, Gguf.LayoutFits;
    ShortHeaders();
  }

  lemma {:induction false} WrappedSetFits()
    ensures AllFit(WrappedSet()) && |WrappedSet()| == 2
    ensures |FileOf(WrappedSet()[0])| == FirstStart() + 1 && |FileOf(WrappedSet()[1])| <= 10000
  {
    hide Gguf.PrintLayout, Gguf.LayoutFits, FirstStart;
    var ws := WrappedSet();
    ShortHeaders();
    FirstStartIs();
    HeadersFit(ws[0].header.infos[0].offset);
    LengthIgnoresOffset(ws[0].header.infos[0].offset);
    assert WrittenFits(ws[0]) && WrittenFits(ws[1]);
  }

  /** What parsing the first file gives: a tensor of one byte at place 0, before the data. */
  lemma {:induction false} WrappedModel()
    requires AllFit(WrappedSet()) && |WrappedSet()| == 2
    ensures
      var model := Model(WrappedSet()[0]);
      && model.dataStart == FirstStart() && |model.tensors| == 1
      && model.tensors[0].fileOffset == 0 && model.tensors[0].byteLength == Some(1) && model.tensors[0].name == "t"
  {
    hide Gguf.PrintLayout, Gguf.LayoutFits, Gguf.ParseGguf;
    var w := WrappedSet()[0];
    ModelIs(w);
    SplitMetadata(0);
    FirstStartIs();
    LengthIgnoresOffset(w.header.infos[0].offset);
    assert Model(w).dataStart == FirstStart();
    assert Gguf.CheckedProduct([1]) == Some(1) by {
      assert [1][..0] == [] && Gguf.CheckedProduct([]) == Some(1);
    }
    assert Model(w).tensors[0] == Gguf.Describe(w.header.infos[0], FirstStart());
  }

  /** A shard of a set of two, numbered `no`. */
  predicate SplitShard(shard: Assembly.Shard, no: nat) {
    && shard.splitCount == Assembly.Value(2) && shard.splitNo.Value? && shard.splitNo.value == no
    && shard.splitTensors == Assembly.Absent && shard.name == None && shard.architecture == Some("a")
  }

  lemma {:induction false} SplitShardOf(w: Written, no: nat)
    requires WrittenFits(w) && w.header.entries == SplitEntries(no) && no < 2
    ensures SplitShard(ShardFrom(w), no)
    ensures ShardFrom(w).dataStart == Model(w).dataStart && ShardFrom(w).fileSize == |FileOf(w)|
  {
    hide Gguf.PrintLayout, Gguf.LayoutFits, Gguf.ParseGguf, Gguf.DescribeAll, Gguf.AlignOffset, Model;
    ModelIs(w);
    SplitMetadata(no);
  }

  /** Both files as shards. */
  lemma {:induction false} WrappedShards(ws: seq<Written>)
    requires AllFit(ws) && ws == WrappedSet()
    ensures |ws| == 2 && |ShardsOf(ws)| == 2 && SplitShard(ShardsOf(ws)[0], 0) && SplitShard(ShardsOf(ws)[1], 1)
    ensures
      var first := ShardsOf(ws)[0];
      && first.dataStart == FirstStart() && first.fileSize == FirstStart() + 1 && |first.tensors| == 1
      && first.tensors[0].fileOffset == 0 && first.tensors[0].byteLength == Some(1) && first.tensors[0].name == "t"
    ensures ShardsOf(ws)[1].tensors == []
  {
    hide Gguf.PrintLayout, Gguf.LayoutFits, Gguf.ParseGguf, Gguf.Describe, Gguf.ModelOf, SplitShard, SplitEntries, FirstStart;
    WrappedSetFits();
    WrappedModel();
    SplitShardOf(ws[0], 0);
    SplitShardOf(ws[1], 1);
    ShardsOfAt(ws, 0);
    ShardsOfAt(ws, 1);
    assert ShardFrom(ws[0]).tensors[0] == StoredAs(Model(ws[0]).tensors[0]);
  }

  lemma {:induction false} SplitIsComplete(shards: seq<Assembly.Shard>)
    requires |shards| == 2 && SplitShard(shards[0], 0) && SplitShard(shards[1], 1)
    requires |shards[0].tensors| == 1 && Assembly.InBounds(shards[0].tensors[0], shards[0].fileSize) && shards[1].tensors == []
    ensures Assembly.Complete(shards, 2)
  {
    assert shards[1..][1..] == [] && Assembly.TotalTensors(shards[1..][1..]) == 0;
    assert Assembly.TotalTensors(shards[1..]) == 0 && Assembly.TotalTensors(shards) == 1;
  }

  /** Written, parsed and assembled, its tensor can be read, and is read as a byte that is not its own. */
  lemma {:induction false} WrappedSetReadsElsewhere(ws: seq<Written>)
    requires ws == WrappedSet()
    ensures AllFit(ws) && |ws| == 2 && Assembly.Complete(ShardsOf(ws), 2) && |ShardsOf(ws)[0].tensors| == 1
    ensures Model(ws[0]).dataStart + ws[0].header.infos[0].offset > U64_MAX
    ensures DataSource.Remapped(ShardsOf(ws), 0, ShardsOf(ws)[0].tensors[0]).fileOffset + 1 <= DataSource.VirtualSize(ShardsOf(ws))
    ensures DataSource.Backed(ShardsOf(ws), FilesOf(ws)) && DataSource.Fits(FilesOf(ws), DataSource.Layouts(ShardsOf(ws)))
    ensures !DataSource.HoldsOwn(ShardsOf(ws), FilesOf(ws), 0, ShardsOf(ws)[0].tensors[0])
  {
    hide Gguf.PrintLayout, Gguf.LayoutFits, Gguf.ParseGguf, Assembly.Complete, DataSource.HoldsOwn, SplitShard;
    WrappedSetFits();
    WrappedModel();
    WrappedShards(ws);
    SplitIsComplete(ShardsOf(ws));
    FirstStartIs();
    ShapeGivesShards(ws, ws);
    OneByteOfData(ShardsOf(ws));
    WrappedBytes(ws);
    DataSource.OutsideHoldsOther(ShardsOf(ws), FilesOf(ws), 0, ShardsOf(ws)[0].tensors[0], 0);
  }

  lemma {:induction false} OneByteOfData(shards: seq<Assembly.Shard>)
    requires |shards| == 2 && shards[0].fileSize == shards[0].dataStart + 1
    ensures DataSource.VirtualSize(shards) >= 1 && DataSource.VirtualStart(shards, 0) == 0
  {
    assert DataSource.VirtualStart(shards, 1) == 1;
  }

  /** The first file starts with the letter G, and its data is a zero. */
  lemma {:induction false} WrappedBytes(ws: seq<Written>)
    requires AllFit(ws) && ws == WrappedSet()
    ensures |ws| == 2 && FilesOf(ws)[0] != [] && FilesOf(ws)[0][0] != 0
    ensures DataSource.DataIs(ShardsOf(ws), FilesOf(ws), 0)
  {
    hide Gguf.LayoutFits, Gguf.ParseGguf, Gguf.PrintCounted, SplitShard;
    WrappedSetFits();
    WrappedShards(ws);
    FirstStartIs();
    SecondHasNoData(ws[1]);
    LengthIgnoresOffset(ws[0].header.infos[0].offset);
    FilesOfAt(ws, 0);
    FilesOfAt(ws, 1);
    ShardsOfAt(ws, 1);
    ShapeGivesShard(ws[1], ws[1]);
  }

  lemma {:induction false} SecondHasNoData(w: Written)
    requires WrittenFits(w) && w.payload == []
    ensures |FileOf(w)| <= Model(w).dataStart
  {
    hide Gguf.PrintLayout, Gguf.LayoutFits, Gguf.ParseGguf;
  }

  // ---------------------------------------------------------------------------------------------
  // Planned ranges
  // ---------------------------------------------------------------------------------------------

  /** A layer's tensor as the data source sees it. */
  function Stored(t: Planner.Tensor): Assembly.Tensor {
    Assembly.Tensor(t.name, t.fileOffset, t.fileOffset, t.byteLength)
  }

  function Listed(planned: seq<ReadPlan.Planned>, ts: seq<Planner.Tensor>): (tensors: seq<Assembly.Tensor>)
    requires forall k :: 0 <= k < |planned| ==> planned[k].index < |ts|
    ensures |tensors| == |planned|
    ensures forall k :: 0 <= k < |planned| ==> tensors[k] == Stored(ts[planned[k].index])
  {
    if planned == [] then [] else Listed(planned[..|planned| - 1], ts) + [Stored(ts[planned[|planned| - 1].index])]
  }

  /** The tensors a range lists. */
  function RangeTensors(r: ReadPlan.Range, ts: seq<Planner.Tensor>): (tensors: seq<Assembly.Tensor>)
    requires forall k :: 0 <= k < |r.tensors| ==> r.tensors[k].index < |ts|
    ensures |tensors| == |r.tensors|
    ensures forall k :: 0 <= k < |tensors| ==> tensors[k] == Stored(ts[r.tensors[k].index])
  {
    Listed(r.tensors, ts)
  }

  ghost predicate AllReadable(source: DataSource.GgufDataSource, ts: seq<Planner.Tensor>) {
    forall i :: 0 <= i < |ts| ==> source.Readable(Stored(ts[i]))
  }

  /** Every range of a plan reads some stretch of the entries. */
  lemma {:induction false} RangeInPlan(rs: seq<ReadPlan.Range>, es: seq<ReadPlan.Entry>, n: nat, i: nat) returns (lo: nat)
    requires ReadPlan.Ordered(es) && n <= |es| && ReadPlan.Plans(rs, es, n) && i < |rs|
    ensures lo + |rs[i].tensors| <= n && ReadPlan.Reads(rs[i], es, lo, lo + |rs[i].tensors|)
    decreases |rs|
  {
    hide ReadPlan.Reads, ReadPlan.Joins;
    var last := rs[|rs| - 1];
    if i == |rs| - 1 {
      lo := n - |last.tensors|;
    } else {
      lo := RangeInPlan(rs[..|rs| - 1], es, n - |last.tensors|, i);
    }
  }

  lemma {:induction false} PlacedTensor(r: ReadPlan.Range, es: seq<ReadPlan.Entry>, lo: nat, k: nat, ts: seq<Planner.Tensor>)
    requires ReadPlan.FromTensors(es, ts) && k < |r.tensors| && lo + |r.tensors| <= |es|
    requires ReadPlan.Reads(r, es, lo, lo + |r.tensors|)
    ensures r.tensors[k].index < |ts|
    ensures
      var t := ts[r.tensors[k].index];
      && r.tensors[k].index == es[lo + k].index && Planner.FileBytes(t) == es[lo + k].end - es[lo + k].start
      && t.fileOffset == es[lo + k].start == r.fileOffset + r.tensors[k].offset
      && t.fileOffset + Planner.FileBytes(t) <= r.End()
  {
    assert ReadPlan.Placed(r, es, lo, k);
  }

  lemma {:induction false} RangeLogical(r: ReadPlan.Range, es: seq<ReadPlan.Entry>, lo: nat, n: nat, ts: seq<Planner.Tensor>)
    requires ReadPlan.FromTensors(es, ts) && n <= |r.tensors| && lo + |r.tensors| <= |es|
    requires ReadPlan.Reads(r, es, lo, lo + |r.tensors|)
    requires forall k :: 0 <= k < |r.tensors| ==> r.tensors[k].index < |ts|
    ensures DataSource.LogicalBytes(RangeTensors(r, ts), n) == ReadPlan.Lengths(es, lo, lo + n)
  {
    hide ReadPlan.Reads;
    if n > 0 {
      RangeLogical(r, es, lo, n - 1, ts);
      PlacedTensor(r, es, lo, n - 1, ts);
      ReadPlan.JoinedLength(es, lo, lo + n - 1);
    }
  }

  lemma {:induction false} RangeSpan(r: ReadPlan.Range, es: seq<ReadPlan.Entry>, lo: nat, ts: seq<Planner.Tensor>)
    requires ReadPlan.FromTensors(es, ts) && lo + |r.tensors| <= |es|
    requires ReadPlan.Reads(r, es, lo, lo + |r.tensors|)
    ensures |r.tensors| > 0 && r.logicalBytes == ReadPlan.Lengths(es, lo, lo + |r.tensors|) <= r.byteLength
    ensures r.fileOffset == es[lo].start && r.End() == es[lo + |r.tensors| - 1].end
  {}

  lemma {:induction false} RangeTensorFits(source: DataSource.GgufDataSource, ts: seq<Planner.Tensor>, es: seq<ReadPlan.Entry>,
                                           r: ReadPlan.Range, lo: nat, k: nat)
    requires AllReadable(source, ts) && ReadPlan.FromTensors(es, ts) && lo + |r.tensors| <= |es| && k < |r.tensors|
    requires ReadPlan.Reads(r, es, lo, lo + |r.tensors|)
    ensures r.tensors[k].index < |ts|
    ensures
      var tensor := Stored(ts[r.tensors[k].index]);
      DataSource.InRange(tensor, r.fileOffset, r.byteLength) && source.Readable(tensor)
  {
    hide ReadPlan.Reads, ReadPlan.FromTensors;
    PlacedTensor(r, es, lo, k, ts);
    assert source.Readable(Stored(ts[r.tensors[k].index]));
  }

  /** The data source accepts a planned range of readable tensors. */
  lemma {:induction false} RangeIsCoalescible(source: DataSource.GgufDataSource, ts: seq<Planner.Tensor>, es: seq<ReadPlan.Entry>,
                                              r: ReadPlan.Range, lo: nat)
    requires source.size <= U64_MAX && AllReadable(source, ts)
    requires ReadPlan.FromTensors(es, ts) && lo + |r.tensors| <= |es| && ReadPlan.Reads(r, es, lo, lo + |r.tensors|)
    ensures forall k :: 0 <= k < |r.tensors| ==> r.tensors[k].index < |ts|
    ensures source.Coalescible(RangeTensors(r, ts), r.fileOffset, r.byteLength)
  {
    hide ReadPlan.Reads, ReadPlan.FromTensors, ReadPlan.Lengths, DataSource.LogicalBytes, AllReadable, Listed;
    var m := |r.tensors|;
    forall k | 0 <= k < m
      ensures r.tensors[k].index < |ts| && DataSource.InRange(Stored(ts[r.tensors[k].index]), r.fileOffset, r.byteLength)
    {
      RangeTensorFits(source, ts, es, r, lo, k);
    }
    RangeLogical(r, es, lo, m, ts);
    RangeSpan(r, es, lo, ts);
    PlacedTensor(r, es, lo, 0, ts);
    PlacedTensor(r, es, lo, m - 1, ts);
    RangeTensorFits(source, ts, es, r, lo, 0);
    RangeTensorFits(source, ts, es, r, lo, m - 1);
  }

  /** In what a coalesced read returns, a tensor stands at its distance from the range's start. */
  lemma {:induction false} StandsAt(source: DataSource.GgufDataSource, tensors: seq<Assembly.Tensor>, fileOffset: nat, byteLength: nat,
                                    bytes: seq<byte>, k: nat, t: Planner.Tensor, offset: nat)
    requires source.Fitted() && source.CoalescedHolds(tensors, fileOffset, byteLength, bytes)
    requires k < |tensors| && tensors[k] == Stored(t) && t.fileOffset == fileOffset + offset
    ensures HoldsAt(source, t, bytes, offset)
  {
    hide DataSource.GgufDataSource.Holds, DataSource.GgufDataSource.Fitted, DataSource.GgufDataSource.Contents,
         DataSource.GgufDataSource.Files, DataSource.LogicalBytes;
    assert DataSource.InRange(tensors[k], fileOffset, byteLength);
    DataSource.CoalescedSlice(source, tensors, fileOffset, byteLength, bytes, k);
    assert tensors[k].fileOffset - fileOffset == offset;
  }

  lemma {:induction false} RangeStands(source: DataSource.GgufDataSource, ts: seq<Planner.Tensor>, es: seq<ReadPlan.Entry>,
                                       r: ReadPlan.Range, lo: nat, bytes: seq<byte>)
    requires source.Fitted() && ReadPlan.FromTensors(es, ts) && lo + |r.tensors| <= |es|
    requires ReadPlan.Reads(r, es, lo, lo + |r.tensors|)
    requires forall k :: 0 <= k < |r.tensors| ==> r.tensors[k].index < |ts|
    ensures source.CoalescedHolds(RangeTensors(r, ts), r.fileOffset, r.byteLength, bytes) ==>
      forall k :: 0 <= k < |r.tensors| ==> HoldsAt(source, ts[r.tensors[k].index], bytes, r.tensors[k].offset)
  {
    hide ReadPlan.Reads, ReadPlan.FromTensors, Listed, HoldsAt, DataSource.GgufDataSource.Fitted,
         DataSource.GgufDataSource.CoalescedHolds;
    var tensors := RangeTensors(r, ts);
    if source.CoalescedHolds(tensors, r.fileOffset, r.byteLength, bytes) {
      forall k | 0 <= k < |r.tensors| ensures HoldsAt(source, ts[r.tensors[k].index], bytes, r.tensors[k].offset) {
        PlacedTensor(r, es, lo, k, ts);
        StandsAt(source, tensors, r.fileOffset, r.byteLength, bytes, k, ts[r.tensors[k].index], r.tensors[k].offset);
      }
    }
  }

  /**
   * Every range of a plan over a layer's entries `es` is accepted, and in what it reads each of its
   * tensors lies at the planned offset, as reading it alone would return it.
   */
  lemma {:induction false} PlannedRangeReads(source: DataSource.GgufDataSource, ts: seq<Planner.Tensor>, es: seq<ReadPlan.Entry>,
                                             rs: seq<ReadPlan.Range>, i: nat, bytes: seq<byte>)
    requires source.Fitted() && AllReadable(source, ts)
    requires ReadPlan.FromTensors(es, ts) && ReadPlan.Plans(rs, es, |es|) && i < |rs|
    ensures forall k :: 0 <= k < |rs[i].tensors| ==> rs[i].tensors[k].index < |ts|
    ensures source.Coalescible(RangeTensors(rs[i], ts), rs[i].fileOffset, rs[i].byteLength)
    ensures source.CoalescedHolds(RangeTensors(rs[i], ts), rs[i].fileOffset, rs[i].byteLength, bytes) ==>
      forall k :: 0 <= k < |rs[i].tensors| ==> HoldsAt(source, ts[rs[i].tensors[k].index], bytes, rs[i].tensors[k].offset)
  {
    hide ReadPlan.Reads, ReadPlan.Plans, AllReadable, Listed, HoldsAt, DataSource.Fits,
         DataSource.GgufDataSource.CoalescedHolds, DataSource.GgufDataSource.Coalescible;
    var lo := RangeInPlan(rs, es, |es|, i);
    RangeIsCoalescible(source, ts, es, rs[i], lo);
    RangeStands(source, ts, es, rs[i], lo, bytes);
  }

  /** The tensor's bytes stand in `bytes` from `offset` on. */
  ghost predicate HoldsAt(source: DataSource.GgufDataSource, t: Planner.Tensor, bytes: seq<byte>, offset: nat)
    requires source.Fitted()
  {
    && t.byteLength.Some? && offset + t.byteLength.value <= |bytes|
    && source.Holds(Stored(t), bytes[offset..offset + t.byteLength.value])
  }
}
