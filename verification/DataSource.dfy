/**
 * Shard files presented as one virtual byte space: every read, however it crosses shard boundaries
 * and whatever the cached cursors say, returns the bytes of the right file.
 */
module DataSource {
  import opened Prelude
  import opened Assembly

  // ---------------------------------------------------------------------------------------------
  // Layouts
  // ---------------------------------------------------------------------------------------------

  function SaturatingAdd(a: nat, b: nat): (sum: nat) {
    if a + b <= U64_MAX then a + b else U64_MAX
  }

  function SaturatingSub(a: nat, b: nat): (difference: nat) {
    if b <= a then a - b else 0
  }

  datatype Layout = Layout(
    fileSize: nat,
    dataStart: nat,
    dataLength: nat,
    virtualStart: nat,
    virtualEnd: nat,
    physicalStart: nat)

  function DataLength(shard: Shard): nat {
    SaturatingSub(shard.fileSize, shard.dataStart)
  }

  /** Where the k-th shard's data section starts in the virtual space of a sharded model. */
  function VirtualStart(shards: seq<Shard>, k: nat): (start: nat)
    requires k <= |shards|
    ensures start <= U64_MAX
  {
    if k == 0 then 0 else SaturatingAdd(VirtualStart(shards, k - 1), DataLength(shards[k - 1]))
  }

  function LayoutOf(shards: seq<Shard>, k: nat): Layout
    requires k < |shards|
  {
    var shard := shards[k];
    if |shards| == 1 then
      Layout(shard.fileSize, shard.dataStart, shard.fileSize, 0, shard.fileSize, 0)
    else
      Layout(shard.fileSize, shard.dataStart, DataLength(shard),
             VirtualStart(shards, k), VirtualStart(shards, k + 1), shard.dataStart)
  }

  function VirtualSize(shards: seq<Shard>): nat
    requires shards != []
  {
    if |shards| == 1 then shards[0].fileSize else VirtualStart(shards, |shards|)
  }

  method ShardLayouts(shards: seq<Shard>) returns (layouts: seq<Layout>)
    requires shards != []
    ensures |layouts| == |shards|
    ensures forall k :: 0 <= k < |shards| ==> layouts[k] == LayoutOf(shards, k)
  {
    if |shards| == 1 {
      var shard := shards[0];
      return [Layout(shard.fileSize, shard.dataStart, shard.fileSize, 0, shard.fileSize, 0)];
    }
    layouts := [];
    var virtualStart := 0;
    for k := 0 to |shards|
      invariant |layouts| == k && virtualStart == VirtualStart(shards, k)
      invariant forall i :: 0 <= i < k ==> layouts[i] == LayoutOf(shards, i)
    {
      var shard := shards[k];
      var dataLength := SaturatingSub(shard.fileSize, shard.dataStart);
      var layout := Layout(shard.fileSize, shard.dataStart, dataLength, virtualStart,
                           SaturatingAdd(virtualStart, dataLength), shard.dataStart);
      layouts := layouts + [layout];
      virtualStart := layout.virtualEnd;
    }
  }

  // ---------------------------------------------------------------------------------------------
  // The virtual space, as the files define it
  // ---------------------------------------------------------------------------------------------

  /** The k-th layout starts where the one before ends, and maps into its file. */
  predicate LayoutFits(files: seq<seq<byte>>, layouts: seq<Layout>, k: nat)
    requires |files| == |layouts| && k < |layouts|
  {
    && layouts[k].virtualStart <= layouts[k].virtualEnd
    && layouts[k].virtualStart == EndOf(layouts, k)
    && (layouts[k].virtualStart < layouts[k].virtualEnd ==>
      layouts[k].physicalStart + (layouts[k].virtualEnd - layouts[k].virtualStart) <= |files[k]| <= U64_MAX)
  }

  ghost predicate Fits(files: seq<seq<byte>>, layouts: seq<Layout>) {
    |files| == |layouts| && forall k :: 0 <= k < |layouts| ==> LayoutFits(files, layouts, k)
  }

  /** Where the first `k` layouts end. */
  function EndOf(layouts: seq<Layout>, k: nat): nat
    requires k <= |layouts|
  {
    if k == 0 then 0 else layouts[k - 1].virtualEnd
  }

  /** The part of the k-th file that the layout exposes. */
  ghost function Exposed(files: seq<seq<byte>>, layouts: seq<Layout>, k: nat): (part: seq<byte>)
    requires Fits(files, layouts) && k < |layouts|
    ensures |part| == layouts[k].virtualEnd - layouts[k].virtualStart
  {
    assert LayoutFits(files, layouts, k);
    var layout := layouts[k];
    if layout.virtualStart == layout.virtualEnd then []
    else files[k][layout.physicalStart..layout.physicalStart + (layout.virtualEnd - layout.virtualStart)]
  }

  /** The exposed parts of the first `n` files, concatenated. */
  ghost function Space(files: seq<seq<byte>>, layouts: seq<Layout>, n: nat): (space: seq<byte>)
    requires Fits(files, layouts) && n <= |layouts|
    ensures |space| == EndOf(layouts, n)
  {
    if n == 0 then []
    else
      assert LayoutFits(files, layouts, n - 1);
      Space(files, layouts, n - 1) + Exposed(files, layouts, n - 1)
  }

  lemma {:induction false} SliceOfPrefix<T>(a: seq<T>, b: seq<T>, lo: nat, hi: nat)
    requires lo <= hi <= |a|
    ensures (a + b)[lo..hi] == a[lo..hi]
  {}

  lemma {:induction false} SpaceAt(files: seq<seq<byte>>, layouts: seq<Layout>, n: nat, k: nat)
    requires Fits(files, layouts) && k < n <= |layouts|
    ensures LayoutFits(files, layouts, k) && layouts[k].virtualEnd <= EndOf(layouts, n)
    ensures Space(files, layouts, n)[layouts[k].virtualStart..layouts[k].virtualEnd] == Exposed(files, layouts, k)
  {
    hide Exposed;
    assert LayoutFits(files, layouts, k) && LayoutFits(files, layouts, n - 1);
    if k < n - 1 {
      SpaceAt(files, layouts, n - 1, k);
      SliceOfPrefix(Space(files, layouts, n - 1), Exposed(files, layouts, n - 1),
                    layouts[k].virtualStart, layouts[k].virtualEnd);
    }
  }

  lemma {:induction false} SliceOfSlice<T>(s: seq<T>, lo: nat, hi: nat, i: nat, n: nat)
    requires lo <= hi <= |s| && i + n <= hi - lo
    ensures s[lo..hi][i..i + n] == s[lo + i..lo + i + n]
  {
    var a, b := s[lo..hi][i..i + n], s[lo + i..lo + i + n];
    assert |a| == n == |b|;
    assert forall j :: 0 <= j < n ==> a[j] == s[lo + i + j] == b[j];
  }

  lemma {:induction false} SlicesAgree<T>(s: seq<T>, lo: nat, t: seq<T>, from_: nat, extent: nat, i: nat, n: nat)
    requires lo + extent <= |s| && from_ + extent <= |t| && i + n <= extent
    requires s[lo..lo + extent] == t[from_..from_ + extent]
    ensures s[lo + i..lo + i + n] == t[from_ + i..from_ + i + n]
  {
    SliceOfSlice(s, lo, lo + extent, i, n);
    SliceOfSlice(t, from_, from_ + extent, i, n);
  }

  lemma {:induction false} ExposedIs(files: seq<seq<byte>>, layouts: seq<Layout>, k: nat)
    requires Fits(files, layouts) && k < |layouts| && layouts[k].virtualStart < layouts[k].virtualEnd
    ensures
      var layout := layouts[k];
      && LayoutFits(files, layouts, k)
      && Exposed(files, layouts, k)
         == files[k][layout.physicalStart..layout.physicalStart + (layout.virtualEnd - layout.virtualStart)]
  {
    assert LayoutFits(files, layouts, k);
  }

  /** A range inside one shard is the corresponding slice of its file. */
  lemma {:induction false} SpaceSlice(files: seq<seq<byte>>, layouts: seq<Layout>, k: nat, start: nat, length: nat)
    requires Fits(files, layouts) && k < |layouts|
    requires layouts[k].virtualStart <= start && start + length <= layouts[k].virtualEnd
    requires layouts[k].virtualStart < layouts[k].virtualEnd
    ensures LayoutFits(files, layouts, k) && start + length <= EndOf(layouts, |layouts|)
    ensures
      var physical := start - layouts[k].virtualStart + layouts[k].physicalStart;
      Space(files, layouts, |layouts|)[start..start + length] == files[k][physical..physical + length]
  {
    hide Space, EndOf, Exposed;
    SpaceAt(files, layouts, |layouts|, k);
    var layout := layouts[k];
    ExposedIs(files, layouts, k);
    SlicesMatch(Space(files, layouts, |layouts|), layout.virtualStart, layout.virtualEnd,
                files[k], layout.physicalStart, start, length);
  }

  lemma {:induction false} SlicesMatch<T>(s: seq<T>, lo: nat, hi: nat, t: seq<T>, from_: nat, start: nat, length: nat)
    requires lo <= start && start + length <= hi <= |s| && from_ + (hi - lo) <= |t|
    requires s[lo..hi] == t[from_..from_ + (hi - lo)]
    ensures s[start..start + length] == t[start - lo + from_..start - lo + from_ + length]
  {
    SlicesAgree(s, lo, t, from_, hi - lo, start - lo, length);
  }

  /** Shards of a model with their files. */
  ghost predicate Backed(shards: seq<Shard>, files: seq<seq<byte>>) {
    && shards != [] && |shards| == |files|
    && forall k :: 0 <= k < |shards| ==> |files[k]| == shards[k].fileSize
  }

  function Layouts(shards: seq<Shard>): (layouts: seq<Layout>)
    ensures |layouts| == |shards|
    ensures forall k :: 0 <= k < |shards| ==> layouts[k] == LayoutOf(shards, k)
  {
    seq(|shards|, k requires 0 <= k < |shards| => LayoutOf(shards, k))
  }

  lemma {:induction false} LayoutsFit(shards: seq<Shard>, files: seq<seq<byte>>)
    requires Backed(shards, files)
    ensures Fits(files, Layouts(shards))
    ensures EndOf(Layouts(shards), |shards|) == VirtualSize(shards)
  {
    var layouts := Layouts(shards);
    forall k | 0 <= k < |shards| ensures LayoutFits(files, layouts, k) {
      assert layouts[k] == LayoutOf(shards, k);
    }
  }

  // ---------------------------------------------------------------------------------------------
  // One file handle
  // ---------------------------------------------------------------------------------------------

  /**
   * An open file with its cursor, and the position the program believes the cursor to be at. An
   * unreliable file may fail any operation, and then leaves its cursor anywhere.
   */
  class FileState {
    const bytes: seq<byte>
    const reliable: bool
    var cursor: nat
    var position: Option<nat>

    /** A known position is the real one. */
    ghost predicate Valid()
      reads this
    {
      position.Some? ==> position.value == cursor
    }

    constructor (bytes: seq<byte>, reliable: bool)
      ensures this.bytes == bytes && this.reliable == reliable && Valid()
    {
      this.bytes := bytes;
      this.reliable := reliable;
      cursor := 0;
      position := Some(0);
    }

    method Seek(offset: nat) returns (ok: bool)
      modifies this`cursor
      ensures ok ==> cursor == offset
      ensures reliable ==> ok
    {
      ok := true;
      if !reliable {
        ok := *;
      }
      if ok {
        cursor := offset;
      } else {
        cursor := *;
      }
    }

    /** Reads into `destination[from_..upTo]`; a failed read may have written any part of it. */
    method ReadExact(destination: array<byte>, from_: nat, upTo: nat) returns (ok: bool)
      requires from_ <= upTo <= destination.Length
      modifies this`cursor, destination
      ensures forall i :: 0 <= i < destination.Length && !(from_ <= i < upTo) ==> destination[i] == old(destination[i])
      ensures ok ==>
        && old(cursor) + (upTo - from_) <= |bytes| && cursor == old(cursor) + (upTo - from_)
        && destination[from_..upTo] == bytes[old(cursor)..cursor]
      ensures reliable && old(cursor) + (upTo - from_) <= |bytes| ==> ok
    {
      var count := upTo - from_;
      ok := cursor + count <= |bytes|;
      if !reliable && ok {
        ok := *;
      }
      if !ok {
        count := *;
        if !(0 <= count <= upTo - from_ && cursor + count <= |bytes|) {
          count := 0;
        }
      }
      forall i | 0 <= i < count {
        destination[from_ + i] := bytes[cursor + i];
      }
      if ok {
        cursor := cursor + count;
      } else {
        cursor := *;
      }
    }
  }

  // ---------------------------------------------------------------------------------------------
  // The data source
  // ---------------------------------------------------------------------------------------------

  datatype SourceError = Io | InvalidRange | InvalidOffset | OutOfBounds | UnknownByteLength

  predicate Inside(layout: Layout, offset: nat) {
    layout.virtualStart <= offset < layout.virtualEnd
  }

  /** Every position of the space lies in one shard. */
  lemma {:induction false} SomeShardHas(files: seq<seq<byte>>, layouts: seq<Layout>, n: nat, offset: nat) returns (k: nat)
    requires Fits(files, layouts) && n <= |layouts| && offset < EndOf(layouts, n)
    ensures k < n && Inside(layouts[k], offset)
  {
    assert LayoutFits(files, layouts, n - 1);
    if layouts[n - 1].virtualStart <= offset {
      k := n - 1;
    } else {
      k := SomeShardHas(files, layouts, n - 1, offset);
    }
  }

  lemma {:induction false} EndsGrow(files: seq<seq<byte>>, layouts: seq<Layout>, k: nat, n: nat)
    requires Fits(files, layouts) && k < n <= |layouts|
    ensures layouts[k].virtualEnd <= EndOf(layouts, n)
  {
    if k < n - 1 {
      EndsGrow(files, layouts, k, n - 1);
    }
    assert LayoutFits(files, layouts, n - 1);
  }

  lemma {:induction false} JoinSlices<T>(d: seq<T>, s: seq<T>, offset: nat, a: nat, b: nat)
    requires a <= b <= |d| && offset + b <= |s|
    requires d[..a] == s[offset..offset + a] && d[a..b] == s[offset + a..offset + b]
    ensures d[..b] == s[offset..offset + b]
  {
    assert d[..b] == d[..a] + d[a..b];
    assert s[offset..offset + b] == s[offset..offset + a] + s[offset + a..offset + b];
  }

  class GgufDataSource {
    const states: seq<FileState>
    const layouts: seq<Layout>
    const dataStart: nat
    /** Size of the virtual space. */
    const size: nat
    var profiling: bool
    var coalescedRanges: nat
    var coalescedGapBytes: nat

    ghost function Files(): (files: seq<seq<byte>>)
      ensures |files| == |states|
      ensures forall k :: 0 <= k < |states| ==> files[k] == states[k].bytes
    {
      seq(|states|, k requires 0 <= k < |states| => states[k].bytes)
    }

    ghost predicate Fitted() {
      && Fits(Files(), layouts) && |layouts| == |states|
      && size == EndOf(layouts, |layouts|) && size <= U64_MAX
      && forall i, j :: 0 <= i < j < |states| ==> states[i] != states[j]
    }

    ghost predicate Valid()
      reads states
    {
      Fitted() && forall k :: 0 <= k < |states| ==> states[k].Valid()
    }

    /** The whole virtual space: what every read is measured against. */
    ghost function Contents(): (space: seq<byte>)
      requires Fitted()
      ensures |space| == size
    {
      Space(Files(), layouts, |layouts|)
    }

    ghost predicate Reliable() {
      forall k :: 0 <= k < |states| ==> states[k].reliable
    }

    constructor (states: seq<FileState>, layouts: seq<Layout>, dataStart: nat, size: nat)
      ensures this.states == states && this.layouts == layouts
      ensures this.dataStart == dataStart && this.size == size
      ensures !profiling && coalescedRanges == 0 && coalescedGapBytes == 0
    {
      this.states, this.layouts, this.dataStart, this.size := states, layouts, dataStart, size;
      profiling, coalescedRanges, coalescedGapBytes := false, 0, 0;
    }

    /** A seek is skipped exactly when the position is known to be right; a failed seek forgets it. */
    method EnsureFilePosition(k: nat, offset: nat) returns (r: Result<(), SourceError>)
      requires k < |states| && Valid()
      modifies states[k]
      ensures Valid()
      ensures r.Ok? ==> states[k].position == Some(offset) && states[k].cursor == offset
      ensures r.Err? ==> !states[k].reliable
    {
      var state := states[k];
      if state.position == Some(offset) {
        return Ok(());
      }
      var ok := state.Seek(offset);
      if ok {
        state.position := Some(offset);
        return Ok(());
      }
      state.position := None;
      return Err(Io);
    }

    method FindShard(offset: nat) returns (found: Option<nat>)
      requires Fitted()
      ensures found.Some? ==> found.value < |layouts| && Inside(layouts[found.value], offset)
      ensures found.Some? <==> offset < size
    {
      for k := 0 to |layouts|
        invariant forall i :: 0 <= i < k ==> !Inside(layouts[i], offset)
      {
        if layouts[k].virtualStart <= offset < layouts[k].virtualEnd {
          EndsGrow(Files(), layouts, k, |layouts|);
          return Some(k);
        }
      }
      if offset < size {
        ghost var k := SomeShardHas(Files(), layouts, |layouts|, offset);
        assert false;
      }
      found := None;
    }

    /** One turn of the read loop: as much as the shard at this position holds. */
    method ReadChunk(fileOffset: nat, destination: array<byte>, written: nat) returns (r: Result<nat, SourceError>)
      requires Valid() && written < destination.Length
      modifies states, destination
      ensures Valid()
      ensures forall i :: 0 <= i < written ==> destination[i] == old(destination[i])
      ensures r.Ok? ==>
        && 1 <= r.value <= destination.Length - written
        && fileOffset + written + r.value <= size
        && destination[written..written + r.value] == Contents()[fileOffset + written..fileOffset + written + r.value]
      ensures r.Err? && Reliable() ==> size <= fileOffset + written
    {
      var virtualOffset := fileOffset + written;
      if virtualOffset > U64_MAX {
        return Err(InvalidRange);
      }
      var found := FindShard(virtualOffset);
      if found.None? {
        return Err(OutOfBounds);
      }
      r := ReadWithin(found.value, virtualOffset, destination, written);
    }

    /** The part of a read that shard `k` can serve. */
    method ReadWithin(k: nat, virtualOffset: nat, destination: array<byte>, written: nat) returns (r: Result<nat, SourceError>)
      requires Valid() && written < destination.Length && k < |layouts| && Inside(layouts[k], virtualOffset)
      modifies states[k], destination
      ensures Valid()
      ensures forall i :: 0 <= i < written ==> destination[i] == old(destination[i])
      ensures r.Ok? ==>
        && 1 <= r.value <= destination.Length - written && virtualOffset + r.value <= size
        && destination[written..written + r.value] == Contents()[virtualOffset..virtualOffset + r.value]
      ensures r.Err? ==> !states[k].reliable
    {
      hide Space, EndOf, Exposed;
      var available := layouts[k].virtualEnd - virtualOffset;
      var chunkLength := Min(available, destination.Length - written);
      SpaceSlice(Files(), layouts, k, virtualOffset, chunkLength);
      var physicalOffset := virtualOffset - layouts[k].virtualStart + layouts[k].physicalStart;
      if physicalOffset > U64_MAX {
        assert false;
      }
      var positioned := EnsureFilePosition(k, physicalOffset);
      if positioned.Err? {
        return Err(positioned.error);
      }
      var state := states[k];
      var ok := state.ReadExact(destination, written, written + chunkLength);
      if !ok {
        state.position := None;
        return Err(Io);
      }
      if physicalOffset + chunkLength > U64_MAX {
        assert false;
      }
      state.position := Some(physicalOffset + chunkLength);
      return Ok(chunkLength);
    }

    /** Fills the destination from the virtual space, shard by shard. */
    method ReadExactInto(fileOffset: nat, destination: array<byte>) returns (r: Result<nat, SourceError>)
      requires Valid()
      modifies states, destination
      ensures Valid()
      ensures r.Ok? && destination.Length > 0 ==>
        && fileOffset + destination.Length <= size
        && destination[..] == Contents()[fileOffset..fileOffset + destination.Length]
      ensures r.Err? && Reliable() ==> size < fileOffset + destination.Length
    {
      if destination.Length == 0 {
        return Ok(0);
      }
      var written: nat := 0;
      var physicalOperations := 0;
      while written < destination.Length
        invariant Valid() && written <= destination.Length
        invariant written > 0 ==> fileOffset + written <= size
        invariant written > 0 ==> destination[..written] == Contents()[fileOffset..fileOffset + written]
        invariant physicalOperations <= written
      {
        ghost var before := destination[..];
        var chunk := ReadChunk(fileOffset, destination, written);
        if chunk.Err? {
          return Err(chunk.error);
        }
        if written > 0 {
          assert destination[..written] == before[..written];
          JoinSlices(destination[..], Contents(), fileOffset, written, written + chunk.value);
        }
        written := written + chunk.value;
        physicalOperations := physicalOperations + 1;
      }
      return Ok(physicalOperations);
    }

    /** A fresh buffer; a failed read leaves it empty. */
    method ReadRange(fileOffset: nat, length: nat) returns (r: Result<seq<byte>, SourceError>)
      requires Valid()
      modifies states
      ensures Valid()
      ensures r.Ok? ==> |r.value| == length
      ensures r.Ok? && length > 0 ==>
        fileOffset + length <= size && r.value == Contents()[fileOffset..fileOffset + length]
      ensures r.Err? && Reliable() ==> size < fileOffset + length
    {
      var buffer := new byte[length];
      var result := ReadExactInto(fileOffset, buffer);
      if result.Err? {
        return Err(result.error);
      }
      return Ok(buffer[..]);
    }

    /** The range lies in the data section and in the space. */
    function ValidateBounds(fileOffset: nat, length: nat): (r: Result<(), SourceError>)
      ensures r.Ok? <==> dataStart <= fileOffset && fileOffset + length <= U64_MAX && fileOffset + length <= size
    {
      if fileOffset < dataStart then Err(InvalidOffset)
      else if fileOffset + length > U64_MAX then Err(InvalidRange)
      else if fileOffset + length > size then Err(OutOfBounds)
      else Ok(())
    }

    /** The tensor's bytes in the virtual space. */
    ghost predicate Holds(tensor: Tensor, bytes: seq<byte>)
      requires Fitted()
    {
      && tensor.byteLength.Some?
      && tensor.fileOffset + tensor.byteLength.value <= size
      && bytes == Contents()[tensor.fileOffset..tensor.fileOffset + tensor.byteLength.value]
    }

    /** Nothing stands between the caller and the tensor but the files themselves. */
    predicate Readable(tensor: Tensor) {
      && tensor.byteLength.Some? && dataStart <= tensor.fileOffset
      && tensor.fileOffset + tensor.byteLength.value <= size
    }

    method ReadTensorByDescriptor(tensor: Tensor) returns (r: Result<seq<byte>, SourceError>)
      requires Valid()
      modifies states
      ensures Valid()
      ensures r.Ok? ==> Readable(tensor) && Holds(tensor, r.value)
      ensures Reliable() && Readable(tensor) ==> r.Ok?
    {
      if tensor.byteLength.None? {
        return Err(UnknownByteLength);
      }
      var byteLength := tensor.byteLength.value;
      var bounds := ValidateBounds(tensor.fileOffset, byteLength);
      if bounds.Err? {
        return Err(bounds.error);
      }
      r := ReadRange(tensor.fileOffset, byteLength);
    }

    /** One physical read for several tensors; the bytes of none of them are the recorded gap. */
    method ReadCoalescedTensorRange(tensors: seq<Tensor>, fileOffset: nat, byteLength: nat)
      returns (r: Result<seq<byte>, SourceError>)
      requires Valid()
      modifies states, this`coalescedRanges, this`coalescedGapBytes
      ensures Valid()
      ensures r.Ok? ==> CoalescedHolds(tensors, fileOffset, byteLength, r.value)
      ensures Reliable() && Coalescible(tensors, fileOffset, byteLength) ==> r.Ok?
      ensures coalescedGapBytes == old(coalescedGapBytes) +
        if r.Ok? && |tensors| > 1 && profiling then byteLength - LogicalBytes(tensors, |tensors|) else 0
      ensures coalescedRanges == old(coalescedRanges) + if r.Ok? && |tensors| > 1 && profiling then 1 else 0
    {
      if tensors == [] {
        return Err(InvalidRange);
      }
      if fileOffset + byteLength > U64_MAX {
        return Err(InvalidRange);
      }
      var rangeEnd := fileOffset + byteLength;
      var bounds := ValidateBounds(fileOffset, byteLength);
      if bounds.Err? {
        return Err(bounds.error);
      }
      forall k | 0 <= k <= |tensors| {
        LogicalGrows(tensors, k, |tensors|);
      }
      var logicalBytes := 0;
      for k := 0 to |tensors|
        invariant logicalBytes == LogicalBytes(tensors, k) <= U64_MAX
        invariant forall i :: 0 <= i < k ==> InRange(tensors[i], fileOffset, byteLength)
      {
        var tensor := tensors[k];
        if tensor.byteLength.None? {
          return Err(UnknownByteLength);
        }
        var tensorBytes := tensor.byteLength.value;
        var tensorBounds := ValidateBounds(tensor.fileOffset, tensorBytes);
        if tensorBounds.Err? {
          return Err(tensorBounds.error);
        }
        var tensorEnd := tensor.fileOffset + tensorBytes;
        if tensorEnd > U64_MAX {
          return Err(InvalidRange);
        }
        if tensor.fileOffset < fileOffset || tensorEnd > rangeEnd {
          return Err(InvalidRange);
        }
        assert LogicalBytes(tensors, k + 1) == logicalBytes + tensorBytes;
        if logicalBytes + tensorBytes > U64_MAX {
          return Err(InvalidRange);
        }
        logicalBytes := logicalBytes + tensorBytes;
      }
      if logicalBytes > byteLength {
        return Err(InvalidRange);
      }
      r := ReadRange(fileOffset, byteLength);
      if r.Ok? && |tensors| > 1 {
        if profiling {
          coalescedRanges := coalescedRanges + 1;
          coalescedGapBytes := coalescedGapBytes + (byteLength - logicalBytes);
        }
      }
    }

    /** What a coalesced read demands of its tensors and its range. */
    predicate Coalescible(tensors: seq<Tensor>, fileOffset: nat, byteLength: nat) {
      && tensors != [] && dataStart <= fileOffset && fileOffset + byteLength <= size <= U64_MAX
      && (forall k :: 0 <= k < |tensors| ==> InRange(tensors[k], fileOffset, byteLength))
      && LogicalBytes(tensors, |tensors|) <= byteLength
    }

    /** The tensors fit the range without exceeding it, and the bytes are those of the space. */
    ghost predicate CoalescedHolds(tensors: seq<Tensor>, fileOffset: nat, byteLength: nat, bytes: seq<byte>)
      requires Fitted()
    {
      && fileOffset + byteLength <= size && bytes == Contents()[fileOffset..fileOffset + byteLength]
      && (forall k :: 0 <= k < |tensors| ==> InRange(tensors[k], fileOffset, byteLength))
      && LogicalBytes(tensors, |tensors|) <= byteLength
    }
  }

  predicate InRange(tensor: Tensor, fileOffset: nat, byteLength: nat) {
    && tensor.byteLength.Some? && fileOffset <= tensor.fileOffset
    && tensor.fileOffset + tensor.byteLength.value <= fileOffset + byteLength
  }

  /** The bytes asked for by the first `n` tensors. */
  function LogicalBytes(tensors: seq<Tensor>, n: nat): nat
    requires n <= |tensors|
  {
    if n == 0 then 0
    else LogicalBytes(tensors, n - 1) + if tensors[n - 1].byteLength.Some? then tensors[n - 1].byteLength.value else 0
  }

  lemma {:induction false} LogicalGrows(tensors: seq<Tensor>, m: nat, n: nat)
    requires m <= n <= |tensors|
    ensures LogicalBytes(tensors, m) <= LogicalBytes(tensors, n)
    decreases n
  {
    if m < n {
      LogicalGrows(tensors, m, n - 1);
    }
  }

  // ---------------------------------------------------------------------------------------------
  // Coalescing is transparent, and its gap is what no tensor asked for
  // ---------------------------------------------------------------------------------------------

  /** Inside an accepted coalesced read, a tensor's slice is what reading it alone returns. */
  lemma {:induction false} CoalescedSlice(source: GgufDataSource, tensors: seq<Tensor>, fileOffset: nat, byteLength: nat,
                       bytes: seq<byte>, k: nat)
    requires source.Fitted() && source.CoalescedHolds(tensors, fileOffset, byteLength, bytes) && k < |tensors|
    ensures
      var start := tensors[k].fileOffset - fileOffset;
      source.Holds(tensors[k], bytes[start..start + tensors[k].byteLength.value])
  {
    var tensor := tensors[k];
    assert InRange(tensor, fileOffset, byteLength);
    SliceOfSlice(source.Contents(), fileOffset, fileOffset + byteLength,
                 tensor.fileOffset - fileOffset, tensor.byteLength.value);
  }

  predicate At(tensor: Tensor, p: nat) {
    tensor.byteLength.Some? && tensor.fileOffset <= p < tensor.fileOffset + tensor.byteLength.value
  }

  /** One of the first `n` tensors has the byte at `p`. */
  predicate Covered(tensors: seq<Tensor>, n: nat, p: nat)
    requires n <= |tensors|
  {
    exists i :: 0 <= i < n && At(tensors[i], p)
  }

  predicate Disjoint(a: Tensor, b: Tensor) {
    a.byteLength.Some? && b.byteLength.Some? && a.byteLength.value > 0 && b.byteLength.value > 0 ==>
      || a.fileOffset + a.byteLength.value <= b.fileOffset
      || b.fileOffset + b.byteLength.value <= a.fileOffset
  }

  predicate PairwiseDisjoint(tensors: seq<Tensor>, n: nat)
    requires n <= |tensors|
  {
    forall i, j :: 0 <= i < j < n ==> Disjoint(tensors[i], tensors[j])
  }

  /** How many bytes of `[lo, hi)` the first `n` tensors have between them. */
  function CoveredCount(tensors: seq<Tensor>, n: nat, lo: nat, hi: nat): nat
    requires n <= |tensors|
  {
    if hi <= lo then 0
    else CoveredCount(tensors, n, lo, hi - 1) + if Covered(tensors, n, hi - 1) then 1 else 0
  }

  /** How many bytes of tensor `n` below `hi` earlier tensors have already. */
  function SharedCount(tensors: seq<Tensor>, n: nat, lo: nat, hi: nat): nat
    requires n < |tensors|
  {
    if hi <= lo then 0
    else SharedCount(tensors, n, lo, hi - 1) + if At(tensors[n], hi - 1) && Covered(tensors, n, hi - 1) then 1 else 0
  }

  /** How many bytes of a tensor lie in `[lo, hi)`. */
  function OwnCount(tensor: Tensor, lo: nat, hi: nat): nat {
    if hi <= lo then 0 else OwnCount(tensor, lo, hi - 1) + if At(tensor, hi - 1) then 1 else 0
  }

  lemma {:induction false} OwnCountIsLength(tensor: Tensor, lo: nat, hi: nat)
    requires tensor.byteLength.Some? && lo <= tensor.fileOffset
    ensures OwnCount(tensor, lo, hi) ==
      if hi <= tensor.fileOffset then 0
      else Min(hi - tensor.fileOffset, tensor.byteLength.value)
  {
    if lo < hi {
      OwnCountIsLength(tensor, lo, hi - 1);
    }
  }

  lemma {:induction false} CoverOneMore(tensors: seq<Tensor>, n: nat, lo: nat, hi: nat)
    requires n < |tensors|
    ensures CoveredCount(tensors, n + 1, lo, hi) + SharedCount(tensors, n, lo, hi)
         == CoveredCount(tensors, n, lo, hi) + OwnCount(tensors[n], lo, hi)
  {
    if lo < hi {
      CoverOneMore(tensors, n, lo, hi - 1);
      var p := hi - 1;
      assert Covered(tensors, n + 1, p) <==> Covered(tensors, n, p) || At(tensors[n], p);
    }
  }

  lemma {:induction false} NoneShared(tensors: seq<Tensor>, n: nat, lo: nat, hi: nat)
    requires n < |tensors| && forall i :: 0 <= i < n ==> Disjoint(tensors[i], tensors[n])
    ensures SharedCount(tensors, n, lo, hi) == 0
  {
    if lo < hi {
      NoneShared(tensors, n, lo, hi - 1);
      if Covered(tensors, n, hi - 1) {
        var i :| 0 <= i < n && At(tensors[i], hi - 1);
        assert Disjoint(tensors[i], tensors[n]);
      }
    }
  }

  lemma {:induction false} SomeShared(tensors: seq<Tensor>, n: nat, lo: nat, hi: nat, p: nat)
    requires n < |tensors| && lo <= p < hi && At(tensors[n], p) && Covered(tensors, n, p)
    ensures SharedCount(tensors, n, lo, hi) > 0
  {
    if p < hi - 1 {
      SomeShared(tensors, n, lo, hi - 1, p);
    }
  }

  lemma {:induction false} NoneCovered(tensors: seq<Tensor>, lo: nat, hi: nat)
    ensures CoveredCount(tensors, 0, lo, hi) == 0
  {
    if lo < hi {
      NoneCovered(tensors, lo, hi - 1);
    }
  }

  /** Tensors ask for at least the bytes they cover, and for exactly those when they are disjoint. */
  lemma {:induction false} LogicalIsCovered(tensors: seq<Tensor>, n: nat, fileOffset: nat, byteLength: nat)
    requires n <= |tensors| && forall k :: 0 <= k < n ==> InRange(tensors[k], fileOffset, byteLength)
    ensures
      var covered := CoveredCount(tensors, n, fileOffset, fileOffset + byteLength);
      && covered <= LogicalBytes(tensors, n)
      && (covered == LogicalBytes(tensors, n) <==> PairwiseDisjoint(tensors, n))
  {
    var lo, hi := fileOffset, fileOffset + byteLength;
    if n == 0 {
      NoneCovered(tensors, lo, hi);
    } else {
      var m := n - 1;
      LogicalIsCovered(tensors, m, fileOffset, byteLength);
      CoverOneMore(tensors, m, lo, hi);
      assert InRange(tensors[m], fileOffset, byteLength);
      OwnCountIsLength(tensors[m], lo, hi);
      if forall i :: 0 <= i < m ==> Disjoint(tensors[i], tensors[m]) {
        NoneShared(tensors, m, lo, hi);
      } else {
        var i :| 0 <= i < m && !Disjoint(tensors[i], tensors[m]);
        var p := Max(tensors[i].fileOffset, tensors[m].fileOffset);
        assert At(tensors[i], p) && At(tensors[m], p);
        SomeShared(tensors, m, lo, hi, p);
      }
    }
  }

  /** The recorded gap is the number of bytes belonging to no tensor exactly when no two tensors overlap. */
  lemma {:induction false} GapIsUncovered(source: GgufDataSource, tensors: seq<Tensor>, fileOffset: nat, byteLength: nat, bytes: seq<byte>)
    requires source.Fitted() && source.CoalescedHolds(tensors, fileOffset, byteLength, bytes)
    ensures
      var gap := byteLength - LogicalBytes(tensors, |tensors|);
      var uncovered := byteLength - CoveredCount(tensors, |tensors|, fileOffset, fileOffset + byteLength);
      gap <= uncovered && (gap == uncovered <==> PairwiseDisjoint(tensors, |tensors|))
  {
    LogicalIsCovered(tensors, |tensors|, fileOffset, byteLength);
  }

  // ---------------------------------------------------------------------------------------------
  // End to end: from the shards' own descriptors to the bytes of their files
  // ---------------------------------------------------------------------------------------------

  /** A shard's descriptor in the merged model. A single file keeps its absolute offsets. */
  function Remapped(shards: seq<Shard>, k: nat, tensor: Tensor): Tensor
    requires k < |shards|
  {
    if |shards| == 1 then tensor
    else
      var offset: u64 := SaturatingAdd(VirtualStart(shards, k), SaturatingSub(tensor.fileOffset, shards[k].dataStart));
      tensor.(fileOffset := offset, offset := offset)
  }

  function RemappedAll(shards: seq<Shard>, k: nat): (tensors: seq<Tensor>)
    requires k < |shards|
    ensures |tensors| == |shards[k].tensors|
    ensures forall i :: 0 <= i < |tensors| ==> tensors[i] == Remapped(shards, k, shards[k].tensors[i])
  {
    seq(|shards[k].tensors|, i requires 0 <= i < |shards[k].tensors| => Remapped(shards, k, shards[k].tensors[i]))
  }

  /** The merged model's descriptors: those of the first `n` shards, in order. */
  function MergedTensors(shards: seq<Shard>, n: nat): seq<Tensor>
    requires n <= |shards|
  {
    if n == 0 then [] else MergedTensors(shards, n - 1) + RemappedAll(shards, n - 1)
  }

  method MergedModel(shards: seq<Shard>) returns (tensors: seq<Tensor>, dataStart: nat)
    requires shards != []
    ensures tensors == MergedTensors(shards, |shards|)
    ensures dataStart == if |shards| == 1 then shards[0].dataStart else 0
  {
    if |shards| == 1 {
      assert RemappedAll(shards, 0) == shards[0].tensors;
      return shards[0].tensors, shards[0].dataStart;
    }
    tensors, dataStart := [], 0;
    var virtualStart := 0;
    for k := 0 to |shards|
      invariant tensors == MergedTensors(shards, k) && virtualStart == VirtualStart(shards, k)
    {
      var shard := shards[k];
      var merged: seq<Tensor> := [];
      for i := 0 to |shard.tensors|
        invariant merged == RemappedAll(shards, k)[..i]
      {
        var relative := SaturatingSub(shard.tensors[i].fileOffset, shard.dataStart);
        var offset: u64 := SaturatingAdd(virtualStart, relative);
        merged := merged + [shard.tensors[i].(fileOffset := offset, offset := offset)];
      }
      tensors := tensors + merged;
      virtualStart := SaturatingAdd(virtualStart, DataLength(shard));
    }
  }

  /** Where tensor `i` of shard `k` stands in the merged model. */
  function MergedIndex(shards: seq<Shard>, k: nat, i: nat): nat
    requires k < |shards| && i < |shards[k].tensors|
  {
    |MergedTensors(shards, k)| + i
  }

  lemma {:induction false} MergedAt(shards: seq<Shard>, n: nat, k: nat, i: nat)
    requires k < n <= |shards| && i < |shards[k].tensors|
    ensures MergedIndex(shards, k, i) < |MergedTensors(shards, n)|
    ensures MergedTensors(shards, n)[MergedIndex(shards, k, i)] == Remapped(shards, k, shards[k].tensors[i])
  {
    if k < n - 1 {
      MergedAt(shards, n - 1, k, i);
    }
  }

  method Open(shards: seq<Shard>, files: seq<seq<byte>>, reliable: seq<bool>)
    returns (source: GgufDataSource, tensors: seq<Tensor>)
    requires Backed(shards, files) && |reliable| == |files|
    ensures fresh(source) && fresh(source.states) && source.Valid()
    ensures source.Files() == files && source.layouts == Layouts(shards) && source.size == VirtualSize(shards)
    ensures source.dataStart == if |shards| == 1 then shards[0].dataStart else 0
    ensures OpenedOn(source, shards, files) && tensors == MergedTensors(shards, |shards|)
    ensures (forall k :: 0 <= k < |reliable| ==> reliable[k]) ==> source.Reliable()
  {
    var dataStart;
    tensors, dataStart := MergedModel(shards);
    var layouts := ShardLayouts(shards);
    assert layouts == Layouts(shards);
    var states: seq<FileState> := [];
    for k := 0 to |files|
      invariant |states| == k && fresh(states)
      invariant forall i :: 0 <= i < k ==> states[i].bytes == files[i] && states[i].reliable == reliable[i]
      invariant forall i :: 0 <= i < k ==> states[i].Valid()
      invariant forall i, j :: 0 <= i < j < k ==> states[i] != states[j]
    {
      var state := new FileState(files[k], reliable[k]);
      states := states + [state];
    }
    LayoutsFit(shards, files);
    source := new GgufDataSource(states, layouts, dataStart, VirtualSize(shards));
    assert source.Files() == files;
  }

  /** The source was opened on these shards and files. */
  ghost predicate OpenedOn(source: GgufDataSource, shards: seq<Shard>, files: seq<seq<byte>>) {
    && Backed(shards, files) && source.Fitted()
    && source.Files() == files && source.layouts == Layouts(shards) && source.size == VirtualSize(shards)
    && source.dataStart == if |shards| == 1 then shards[0].dataStart else 0
  }

  /** The tensor's own bytes, in its own file. */
  ghost predicate IsFileSlice(shard: Shard, file: seq<byte>, tensor: Tensor, bytes: seq<byte>)
    requires |file| == shard.fileSize
  {
    && tensor.byteLength.Some? && tensor.fileOffset + tensor.byteLength.value <= |file|
    && bytes == file[tensor.fileOffset..tensor.fileOffset + tensor.byteLength.value]
  }

  /**
   * The tensor starts in its shard's data section. Assembly does not check this, and an offset that
   * wrapped around breaks it.
   */
  predicate StartsInData(shard: Shard, tensor: Tensor) {
    shard.dataStart <= tensor.fileOffset
  }

  /** A model of several files is a complete set; a single file is opened unchecked. */
  ghost predicate Assembled(shards: seq<Shard>) {
    |shards| > 1 ==> Complete(shards, |shards|)
  }

  lemma {:induction false} AssembledInBounds(shards: seq<Shard>, k: nat, i: nat)
    requires Assembled(shards) && |shards| > 1 && k < |shards| && i < |shards[k].tensors|
    ensures InBounds(shards[k].tensors[i], shards[k].fileSize)
  {
    assert Member(shards[k], |shards|);
  }

  /**
   * When a merged descriptor can be read. In several files only its place in the whole space
   * matters: neither its shard's end nor its shard's data start is looked at.
   */
  lemma {:induction false} RemappedReadable(source: GgufDataSource, shards: seq<Shard>, files: seq<seq<byte>>, k: nat, tensor: Tensor)
    requires OpenedOn(source, shards, files) && k < |shards|
    ensures source.Readable(Remapped(shards, k, tensor)) <==>
      && tensor.byteLength.Some?
      && (if |shards| == 1
          then StartsInData(shards[0], tensor) && InBounds(tensor, shards[0].fileSize)
          else SaturatingAdd(VirtualStart(shards, k), SaturatingSub(tensor.fileOffset, shards[k].dataStart))
               + tensor.byteLength.value <= VirtualStart(shards, |shards|))
  {}

  /** In a shard's data section a tensor can be read unless its end in the space is past 64 bits. */
  lemma {:induction false} InDataReadable(source: GgufDataSource, shards: seq<Shard>, files: seq<seq<byte>>, k: nat, tensor: Tensor)
    requires OpenedOn(source, shards, files) && |shards| > 1 && k < |shards|
    requires StartsInData(shards[k], tensor) && InBounds(tensor, shards[k].fileSize)
    ensures source.Readable(Remapped(shards, k, tensor)) <==>
      && tensor.byteLength.Some?
      && (tensor.byteLength.value > 0 ==>
        VirtualStart(shards, k) + (tensor.fileOffset - shards[k].dataStart) + tensor.byteLength.value <= U64_MAX)
  {
    EndsGrow(files, Layouts(shards), k, |shards|);
    assert Layouts(shards)[k] == LayoutOf(shards, k);
    assert VirtualStart(shards, k + 1) <= source.size;
  }

  /** The merged range lies in the shard's own part of the space, and stands for the tensor's own place in its file. */
  predicate MapsHome(shards: seq<Shard>, k: nat, tensor: Tensor)
    requires k < |shards| && tensor.byteLength.Some?
  {
    var layout, start := LayoutOf(shards, k), Remapped(shards, k, tensor).fileOffset;
    && layout.virtualStart <= start && start + tensor.byteLength.value <= layout.virtualEnd
    && start - layout.virtualStart + layout.physicalStart == tensor.fileOffset
  }

  /** A readable tensor of several files is looked for at its own place exactly when it starts in the data section. */
  lemma {:induction false} MapsHomeInData(shards: seq<Shard>, k: nat, tensor: Tensor)
    requires |shards| > 1 && k < |shards| && InBounds(tensor, shards[k].fileSize)
    requires tensor.byteLength.Some? && tensor.byteLength.value > 0
    requires Remapped(shards, k, tensor).fileOffset + tensor.byteLength.value <= VirtualSize(shards)
    ensures MapsHome(shards, k, tensor) <==> StartsInData(shards[k], tensor)
  {}

  /** What a merged descriptor at its own place holds in the virtual space is the file's own slice. */
  lemma {:induction false} RemappedIsFileSlice(source: GgufDataSource, shards: seq<Shard>, files: seq<seq<byte>>, k: nat,
                            tensor: Tensor, bytes: seq<byte>)
    requires OpenedOn(source, shards, files) && k < |shards| && InBounds(tensor, shards[k].fileSize)
    requires source.Holds(Remapped(shards, k, tensor), bytes)
    requires |shards| > 1 && tensor.byteLength.value > 0 ==> StartsInData(shards[k], tensor)
    ensures IsFileSlice(shards[k], files[k], tensor, bytes)
  {
    hide Space, EndOf, VirtualStart, Exposed;
    var length := tensor.byteLength.value;
    if length > 0 {
      if |shards| > 1 {
        MapsHomeInData(shards, k, tensor);
      }
      SpaceSlice(files, Layouts(shards), k, Remapped(shards, k, tensor).fileOffset, length);
    }
  }

  /** Zeros everywhere but at one place of one file. */
  function Marked(shards: seq<Shard>, k: nat, place: nat): (files: seq<seq<byte>>)
    ensures |files| == |shards|
    ensures forall i :: 0 <= i < |shards| ==>
      && |files[i]| == shards[i].fileSize
      && forall p :: 0 <= p < |files[i]| ==> files[i][p] == if i == k && p == place then 1 else 0
  {
    seq(|shards|, i requires 0 <= i < |shards| =>
      seq(shards[i].fileSize, p requires 0 <= p < shards[i].fileSize => if i == k && p == place then 1 else 0))
  }

  /** The bytes of several files at a merged descriptor's place are the tensor's own. */
  ghost predicate HoldsOwn(shards: seq<Shard>, files: seq<seq<byte>>, k: nat, tensor: Tensor)
    requires Backed(shards, files) && Fits(files, Layouts(shards)) && k < |shards|
  {
    var start := Remapped(shards, k, tensor).fileOffset;
    && tensor.byteLength.Some? && start + tensor.byteLength.value <= |Space(files, Layouts(shards), |shards|)|
    && IsFileSlice(shards[k], files[k], tensor, Space(files, Layouts(shards), |shards|)[start..start + tensor.byteLength.value])
  }

  /** The files' data sections hold nothing but `v`. */
  ghost predicate DataIs(shards: seq<Shard>, files: seq<seq<byte>>, v: byte)
    requires |shards| == |files|
  {
    forall m, p :: 0 <= m < |files| && shards[m].dataStart <= p < |files[m]| ==> files[m][p] == v
  }

  lemma {:induction false} ExposedIsData(shards: seq<Shard>, files: seq<seq<byte>>, v: byte, n: nat)
    requires |shards| > 1 && Backed(shards, files) && Fits(files, Layouts(shards)) && n < |shards| && DataIs(shards, files, v)
    ensures forall p :: 0 <= p < |Exposed(files, Layouts(shards), n)| ==> Exposed(files, Layouts(shards), n)[p] == v
  {
    assert Layouts(shards)[n] == LayoutOf(shards, n) && LayoutFits(files, Layouts(shards), n);
  }

  /** Then so does the space: what lies before a data section never shows. */
  lemma {:induction false} SpaceIsData(shards: seq<Shard>, files: seq<seq<byte>>, v: byte, n: nat)
    requires |shards| > 1 && Backed(shards, files) && Fits(files, Layouts(shards)) && n <= |shards| && DataIs(shards, files, v)
    ensures forall p :: 0 <= p < |Space(files, Layouts(shards), n)| ==> Space(files, Layouts(shards), n)[p] == v
  {
    hide Exposed, LayoutOf, VirtualStart, Backed, DataIs;
    if n > 0 {
      SpaceIsData(shards, files, v, n - 1);
      ExposedIsData(shards, files, v, n - 1);
      var before, part := Space(files, Layouts(shards), n - 1), Exposed(files, Layouts(shards), n - 1);
      assert Space(files, Layouts(shards), n) == before + part;
    }
  }

  lemma {:induction false} InDataHoldsOwn(shards: seq<Shard>, files: seq<seq<byte>>, k: nat, tensor: Tensor)
    requires |shards| > 1 && k < |shards| && InBounds(tensor, shards[k].fileSize)
    requires tensor.byteLength.Some? && tensor.byteLength.value > 0
    requires Backed(shards, files) && Fits(files, Layouts(shards)) && MapsHome(shards, k, tensor)
    ensures HoldsOwn(shards, files, k, tensor)
  {
    hide Space, EndOf, VirtualStart, Exposed;
    LayoutsFit(shards, files);
    SpaceSlice(files, Layouts(shards), k, Remapped(shards, k, tensor).fileOffset, tensor.byteLength.value);
  }

  /** A tensor that starts before the data section does not read as its own bytes where they differ from the data. */
  lemma {:induction false} OutsideHoldsOther(shards: seq<Shard>, files: seq<seq<byte>>, k: nat, tensor: Tensor, v: byte)
    requires |shards| > 1 && k < |shards| && InBounds(tensor, shards[k].fileSize)
    requires tensor.byteLength.Some? && tensor.byteLength.value > 0
    requires Backed(shards, files) && Fits(files, Layouts(shards)) && DataIs(shards, files, v)
    requires files[k][tensor.fileOffset] != v
    ensures !HoldsOwn(shards, files, k, tensor)
  {
    hide EndOf, VirtualStart, Exposed, DataIs;
    SpaceIsData(shards, files, v, |shards|);
    var space, start, length := Space(files, Layouts(shards), |shards|), Remapped(shards, k, tensor).fileOffset, tensor.byteLength.value;
    assert files[k][tensor.fileOffset..tensor.fileOffset + length][0] == files[k][tensor.fileOffset];
    if start + length <= |space| {
      assert space[start..start + length][0] == v;
    }
  }

  /**
   * A readable tensor of several files reads as its own bytes, whatever the files hold, exactly
   * when it starts in its shard's data section.
   */
  lemma {:induction false} OwnBytesInData(shards: seq<Shard>, k: nat, tensor: Tensor)
    requires |shards| > 1 && k < |shards| && InBounds(tensor, shards[k].fileSize)
    requires tensor.byteLength.Some? && tensor.byteLength.value > 0
    requires Remapped(shards, k, tensor).fileOffset + tensor.byteLength.value <= VirtualSize(shards)
    ensures StartsInData(shards[k], tensor) <==>
      forall files :: Backed(shards, files) && Fits(files, Layouts(shards)) ==> HoldsOwn(shards, files, k, tensor)
  {
    hide Space, EndOf, VirtualStart, Exposed, HoldsOwn, Remapped;
    if StartsInData(shards[k], tensor) {
      MapsHomeInData(shards, k, tensor);
      forall files | Backed(shards, files) && Fits(files, Layouts(shards)) ensures HoldsOwn(shards, files, k, tensor) {
        InDataHoldsOwn(shards, files, k, tensor);
      }
    } else {
      var files := Marked(shards, k, tensor.fileOffset);
      LayoutsFit(shards, files);
      OutsideHoldsOther(shards, files, k, tensor, 0);
    }
  }

  /** A complete set of two files, one of whose tensors lies before its data section. */
  function MisplacedShards(): (shards: seq<Shard>)
    ensures |shards| == 2
  {
    [Shard(2, 1, [Tensor("t", U64_MAX, 0, Some(1))], Value(2), Value(0), Absent, None, Some("a")),
     Shard(1, 0, [], Value(2), Value(1), Absent, None, Some("a"))]
  }

  lemma {:induction false} MisplacedIsComplete()
    ensures Complete(MisplacedShards(), 2)
  {
    var shards := MisplacedShards();
    assert TotalTensors(shards[1..][1..]) == 0;
    assert TotalTensors(shards[1..]) == 0;
    assert TotalTensors(shards) == 1;
  }

  /** It is accepted and read, and what is read is another byte. */
  lemma {:induction false} MisplacedTensorReadsElsewhere()
    ensures
      var shards, files := MisplacedShards(), [[7, 9], [0]];
      var tensor := shards[0].tensors[0];
      && Complete(shards, 2) && Backed(shards, files) && Fits(files, Layouts(shards))
      && !StartsInData(shards[0], tensor) && Remapped(shards, 0, tensor).fileOffset == 0
      && Space(files, Layouts(shards), 2)[0..1] == [9] && IsFileSlice(shards[0], files[0], tensor, [7])
  {
    hide Complete;
    MisplacedIsComplete();
    var shards, files := MisplacedShards(), [[7, 9], [0]];
    var layouts := Layouts(shards);
    LayoutsFit(shards, files);
    assert layouts[0] == LayoutOf(shards, 0) && layouts[1] == LayoutOf(shards, 1);
    assert Exposed(files, layouts, 0) == [9];
    assert Space(files, layouts, 1) == [9];
    assert Space(files, layouts, 2) == [9] + Exposed(files, layouts, 1);
  }

  /** Every tensor of every assembled set reads as its own file's bytes at its own offset if it starts in the data section. */
  method ReadShardTensor(source: GgufDataSource, tensors: seq<Tensor>, ghost shards: seq<Shard>,
                         ghost files: seq<seq<byte>>, ghost k: nat, ghost i: nat, index: nat)
    returns (r: Result<seq<byte>, SourceError>)
    requires source.Valid() && OpenedOn(source, shards, files) && Assembled(shards) && tensors == MergedTensors(shards, |shards|)
    requires k < |shards| && i < |shards[k].tensors| && index == MergedIndex(shards, k, i) < |tensors|
    modifies source.states
    ensures source.Valid()
    ensures r.Ok? ==> source.Readable(Remapped(shards, k, shards[k].tensors[i]))
    ensures r.Ok? && StartsInData(shards[k], shards[k].tensors[i]) ==>
      IsFileSlice(shards[k], files[k], shards[k].tensors[i], r.value)
    ensures r.Ok? && !StartsInData(shards[k], shards[k].tensors[i]) ==>
      && |shards| > 1
      && (shards[k].tensors[i].byteLength.value > 0 ==> !MapsHome(shards, k, shards[k].tensors[i]))
    ensures source.Reliable() && source.Readable(Remapped(shards, k, shards[k].tensors[i])) ==> r.Ok?
  {
    MergedAt(shards, |shards|, k, i);
    r := source.ReadTensorByDescriptor(tensors[index]);
    if r.Ok? {
      var tensor := shards[k].tensors[i];
      RemappedReadable(source, shards, files, k, tensor);
      if |shards| > 1 {
        AssembledInBounds(shards, k, i);
        if tensor.byteLength.value > 0 {
          MapsHomeInData(shards, k, tensor);
        }
      }
      if StartsInData(shards[k], tensor) {
        RemappedIsFileSlice(source, shards, files, k, tensor, r.value);
      }
    }
  }
}
