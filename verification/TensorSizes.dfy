/**
 * Sizes agree across components: what a parsed descriptor says of a tensor's bytes is what loading it
 * charges, and what the rows of its blocks take.
 */
module TensorSizes {
  import opened Prelude
  import Gguf
  import Planner
  import Quant

  /** How a type code is loaded: the floats, the quantized types kept in file form, and the rest. */
  function KindOf(typeCode: nat): Planner.Kind {
    match typeCode
    case 0 => Planner.F32
    case 1 => Planner.F16
    case 30 => Planner.BF16
    case _ => if typeCode in {2, 6, 8, 10, 11, 12, 13, 14, 15} then Planner.Compact else Planner.Unsupported
  }

  /** A described tensor as the planner sees it. */
  function Planned(d: Gguf.Descriptor): Planner.Tensor
    requires d.numElements <= U64_MAX && d.fileOffset <= U64_MAX
    requires d.byteLength.Some? ==> d.byteLength.value <= U64_MAX
  {
    var byteLength: Option<u64> := if d.byteLength.Some? then Some(d.byteLength.value) else None;
    Planner.Tensor(d.name, KindOf(d.typeCode), d.numElements, byteLength, d.fileOffset)
  }

  lemma {:induction false} DescribedFits(d: Gguf.Descriptor, info: Gguf.Info, dataStart: nat)
    requires Gguf.Describes(d, info, dataStart)
    ensures d.numElements <= U64_MAX && d.fileOffset <= U64_MAX
    ensures d.byteLength.Some? ==> d.byteLength.value <= U64_MAX
  {
    assert Gguf.PrefixesFit(info.dims) ==> info.dims[..|info.dims|] == info.dims;
  }

  /** Every parsed tensor of a supported type and known length has the length its type gives its elements. */
  lemma {:induction false} DescribedMatchesType(d: Gguf.Descriptor, info: Gguf.Info, dataStart: nat)
    requires Gguf.Describes(d, info, dataStart) && d.byteLength.Some? && KindOf(d.typeCode) != Planner.Unsupported
    ensures d.numElements <= U64_MAX && d.fileOffset <= U64_MAX && d.byteLength.value <= U64_MAX
    ensures Planner.MatchesType(Planned(d))
  {
    DescribedFits(d, info, dataStart);
    hide Gguf.PrefixesFit, Gguf.Product;
    if d.typeCode in {0, 1, 30} {
      var block, size := Gguf.TypeInfo(d.typeCode).value.0, Gguf.TypeInfo(d.typeCode).value.1;
      assert block == 1;
      var blocks: nat :| Gguf.FewestBlocks(d.numElements, block, blocks) && d.byteLength == Some(blocks * size);
    }
  }

  function CodeOf(format: Quant.Format): nat {
    if format.Q4_0? then 2 else 14
  }

  /** A Q4_0 or Q6_K tensor of whole rows of blocks has just the bytes of those rows. */
  lemma {:induction false} DescribedHoldsRows(d: Gguf.Descriptor, info: Gguf.Info, dataStart: nat, format: Quant.Format,
                                              rows: nat, blocks: nat)
    requires Gguf.Describes(d, info, dataStart) && d.typeCode == CodeOf(format)
    requires d.numElements == rows * Quant.RowWidth(format, blocks) && d.byteLength.Some?
    ensures d.byteLength.value == rows * Quant.RowBytes(format, blocks)
  {
    hide Gguf.PrefixesFit, Gguf.Product, Gguf.FewestBlocks;
    var block, size := Quant.RowWidth(format, 1), Quant.RowBytes(format, 1);
    assert Gguf.TypeInfo(d.typeCode) == Some((block, size));
    var n: nat :| Gguf.FewestBlocks(d.numElements, block, n) && d.byteLength == Some(n * size);
    hide Gguf.TypeInfo, Gguf.IsByteLength, Gguf.Describes;
    RowsOfBlocks(format, rows, blocks);
    WholeBlocks(rows * blocks, block, n);
  }

  lemma {:induction false} RowsOfBlocks(format: Quant.Format, rows: nat, blocks: nat)
    ensures rows * Quant.RowWidth(format, blocks) == rows * blocks * Quant.RowWidth(format, 1)
    ensures rows * Quant.RowBytes(format, blocks) == rows * blocks * Quant.RowBytes(format, 1)
  {}

  lemma {:induction false} WholeBlocks(count: nat, block: nat, n: nat)
    requires block in {32, 256} && Gguf.FewestBlocks(count * block, block, n)
    ensures n == count
  {}

  /** The bytes of the parts a decoder takes a block apart into, in order. */
  function PartBytes(typeCode: nat): nat {
    match typeCode
    case 0 => 4
    case 1 => 2
    case 30 => 2
    case 2 => 2 + 16
    case 6 => 2 + 4 + 16
    case 8 => 2 + 32
    case 10 => 16 + 64 + 2 + 2
    case 11 => 32 + 64 + 12 + 2
    case 12 => 2 + 2 + 12 + 128
    case 13 => 2 + 2 + 12 + 32 + 128
    case 14 => 128 + 64 + 16 + 2
    case 15 => 4 + 256 + 2 * 16
    case _ => 0
  }

  /** For every type that can be loaded, the block size in the type table is the sum of its decoder's parts. */
  lemma {:induction false} BlocksAreTheirParts(typeCode: nat)
    requires KindOf(typeCode) != Planner.Unsupported
    ensures Gguf.TypeInfo(typeCode) ==
      Some((if typeCode in {0, 1, 30} then 1 else if typeCode in {2, 6, 8} then 32 else 256, PartBytes(typeCode)))
  {}
}
