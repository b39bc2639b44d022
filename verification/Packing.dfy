/**
 * What the bits of a block stand for: blocks are packed from numbers and scales by the layout alone,
 * and decode to the products of those. Every block is such a packing.
 */
module Packing {
  import opened Prelude
  import opened Quant

  /** A half-precision scale by its sixteen bits, low byte first. */
  function ScaleBytes(s: nat): (bytes: seq<byte>)
    requires s < 0x1_0000
    ensures |bytes| == 2
  {
    [s % 256, s / 256]
  }

  function ScaleBits(low: int, high: int): (s: nat)
    requires 0 <= low < 256 && 0 <= high < 256
    ensures s < 0x1_0000 && ScaleBytes(s) == [low, high]
  {
    low + 256 * high
  }

  lemma {:induction false} SliceOfSlice<T>(s: seq<T>, off: nat, n: nat, a: nat, b: nat)
    requires off + n <= |s| && a <= b <= n
    ensures s[off..off + n][a..b] == s[off + a..off + b]
  {
    var t := s[off..off + n];
    forall i | 0 <= i < b - a ensures t[a..b][i] == s[off + a..off + b][i] {
      assert t[a + i] == s[off + a + i];
    }
  }

  // ---------------------------------------------------------------------------------------------
  // Q4_0
  // ---------------------------------------------------------------------------------------------

  /** Thirty-two numbers of four bits and a scale. */
  predicate FitsQ4_0(q: seq<int>, s: nat) {
    |q| == 32 && (forall k :: 0 <= k < 32 ==> -8 <= q[k] <= 7) && s < 0x1_0000
  }

  /** Byte `j` keeps number `j` in its low half and number `16 + j` in its high half, both plus eight. */
  function PackQ4_0(q: seq<int>, s: nat): (bytes: seq<byte>)
    requires FitsQ4_0(q, s)
    ensures |bytes| == 18
  {
    ScaleBytes(s) + seq(16, j requires 0 <= j < 16 => q[j] + 8 + 16 * (q[16 + j] + 8))
  }

  /** Two numbers below sixteen that share a byte. */
  lemma {:induction false} Nibbles(low: int, high: int)
    requires 0 <= low < 16
    ensures (low + 16 * high) % 16 == low && (low + 16 * high) / 16 == high
  {}

  /** The parts of a packed block, where the decoder takes them from. */
  lemma {:induction false} PackedPartsQ4_0(half: Half, bytes: seq<byte>, off: nat, q: seq<int>, s: nat)
    requires FitsQ4_0(q, s) && off + 18 <= |bytes| && bytes[off..off + 18] == PackQ4_0(q, s)
    ensures
      var block := BlockQ4_0At(half, bytes, off);
      block.d == half[s] && forall j :: 0 <= j < 16 ==> block.qs[j] == q[j] + 8 + 16 * (q[16 + j] + 8)
  {
    var packed := PackQ4_0(q, s);
    assert bytes[off] == packed[0] == s % 256 && bytes[off + 1] == packed[1] == s / 256;
    SliceOfSlice(bytes, off, 18, 2, 18);
    forall j | 0 <= j < 16 ensures packed[2..18][j] == q[j] + 8 + 16 * (q[16 + j] + 8) {
    }
  }

  /** A packed block decodes to its numbers, times the scale. */
  lemma {:induction false} PackedQ4_0(half: Half, bytes: seq<byte>, off: nat, q: seq<int>, s: nat, k: nat)
    requires FitsQ4_0(q, s) && off + 18 <= |bytes| && bytes[off..off + 18] == PackQ4_0(q, s) && k < 32
    ensures WeightQ4_0(BlockQ4_0At(half, bytes, off), k) == q[k] as real * half[s]
  {
    hide PackQ4_0, BlockQ4_0At;
    PackedPartsQ4_0(half, bytes, off, q, s);
    var j := k % 16;
    Nibbles(q[j] + 8, q[16 + j] + 8);
    var b: int := BlockQ4_0At(half, bytes, off).qs[j];
    assert b % 16 - 8 == q[j] && b / 16 - 8 == q[16 + j];
    assert k == if k < 16 then j else 16 + j;
  }

  /** The number a block keeps for weight `k`. */
  function NibbleOf(block: seq<byte>, k: nat): (q: int)
    requires |block| == 18 && k < 32
    ensures -8 <= q <= 7
  {
    var b: int := block[2 + k % 16];
    (if k < 16 then b % 16 else b / 16) - 8
  }

  /** Every block of eighteen bytes is packed. */
  lemma {:induction false} AllPackedQ4_0(block: seq<byte>) returns (q: seq<int>, s: nat)
    requires |block| == 18
    ensures FitsQ4_0(q, s) && PackQ4_0(q, s) == block
  {
    q := seq(32, k requires 0 <= k < 32 => NibbleOf(block, k));
    s := ScaleBits(block[0], block[1]);
    var packed := PackQ4_0(q, s);
    forall i | 0 <= i < 18 ensures packed[i] == block[i] {
      if i >= 2 {
        assert packed[i] == q[i - 2] + 8 + 16 * (q[16 + (i - 2)] + 8);
      }
    }
  }

  // ---------------------------------------------------------------------------------------------
  // Q6_K
  // ---------------------------------------------------------------------------------------------

  /** 256 numbers of six bits. */
  predicate SixBitNumbers(q: seq<int>) {
    |q| == 256 && forall k :: 0 <= k < 256 ==> -32 <= q[k] <= 31
  }

  /** Sixteen signed bytes, each to scale sixteen numbers. */
  predicate SignedScales(scales: seq<int>) {
    |scales| == 16 && forall i :: 0 <= i < 16 ==> -128 <= scales[i] <= 127
  }

  /** The four low and the two high bits of a number, plus thirty-two. */
  function LowBits(q: int): (bits: nat)
    requires -32 <= q <= 31
    ensures bits < 16
  {
    (q + 32) % 16
  }

  function HighBits(q: int): (bits: nat)
    requires -32 <= q <= 31
    ensures bits < 4
  {
    (q + 32) / 16
  }

  /** In each half of 128, 64 bytes keep the low bits of two numbers that are 64 apart. */
  function LowByte(q: seq<int>, i: nat): byte
    requires SixBitNumbers(q) && i < 128
  {
    var k := 128 * (i / 64) + i % 64;
    LowBits(q[k]) + 16 * LowBits(q[k + 64])
  }

  /** In each half of 128, 32 bytes keep the high bits of four numbers that are 32 apart. */
  function HighByte(q: seq<int>, i: nat): byte
    requires SixBitNumbers(q) && i < 64
  {
    var k := 128 * (i / 32) + i % 32;
    HighBits(q[k]) + 4 * HighBits(q[k + 32]) + 16 * HighBits(q[k + 64]) + 64 * HighBits(q[k + 96])
  }

  /** Two's complement. */
  function ScaleByte(scale: int): byte
    requires -128 <= scale <= 127
  {
    if scale < 0 then 256 + scale else scale
  }

  function LowBytes(q: seq<int>): (bytes: seq<byte>)
    requires SixBitNumbers(q)
    ensures |bytes| == 128
  {
    seq(128, i requires 0 <= i < 128 => LowByte(q, i))
  }

  function HighBytes(q: seq<int>): (bytes: seq<byte>)
    requires SixBitNumbers(q)
    ensures |bytes| == 64
  {
    seq(64, i requires 0 <= i < 64 => HighByte(q, i))
  }

  function SubScaleBytes(scales: seq<int>): (bytes: seq<byte>)
    requires SignedScales(scales)
    ensures |bytes| == 16
  {
    seq(16, i requires 0 <= i < 16 => ScaleByte(scales[i]))
  }

  /** Low bits, high bits, scales of sixteen, and the scale of all. */
  function PackQ6K(q: seq<int>, scales: seq<int>, s: nat): (bytes: seq<byte>)
    requires SixBitNumbers(q) && SignedScales(scales) && s < 0x1_0000
    ensures |bytes| == 210
  {
    LowBytes(q) + HighBytes(q) + SubScaleBytes(scales) + ScaleBytes(s)
  }

  /** The parts of a packed block, where the decoder takes them from. */
  lemma {:induction false} PackedParts(half: Half, bytes: seq<byte>, off: nat, q: seq<int>, scales: seq<int>, s: nat)
    requires SixBitNumbers(q) && SignedScales(scales) && s < 0x1_0000
    requires off + 210 <= |bytes| && bytes[off..off + 210] == PackQ6K(q, scales, s)
    ensures
      var block := BlockQ6KAt(half, bytes, off);
      block.ql == LowBytes(q) && block.qh == HighBytes(q) && block.scales == scales && block.d == half[s]
  {
    hide LowByte, HighByte;
    var packed := PackQ6K(q, scales, s);
    SliceOfSlice(bytes, off, 210, 0, 128);
    SliceOfSlice(bytes, off, 210, 128, 192);
    SliceOfSlice(bytes, off, 210, 192, 208);
    assert packed[..128] == LowBytes(q) && packed[128..192] == HighBytes(q) && packed[192..208] == SubScaleBytes(scales);
    assert bytes[off + 208] == packed[208] && bytes[off + 209] == packed[209];
    assert packed[208] == s % 256 && packed[209] == s / 256;
  }

  lemma {:induction false} Pairs(x0: int, x1: int, x2: int, x3: int)
    requires 0 <= x0 < 4 && 0 <= x1 < 4 && 0 <= x2 < 4 && 0 <= x3 < 4
    ensures
      var b := x0 + 4 * x1 + 16 * x2 + 64 * x3;
      b % 4 == x0 && b / 4 % 4 == x1 && b / 16 % 4 == x2 && b / 64 % 4 == x3
  {}

  /** The low bits of a number, where its quarter keeps them. */
  lemma {:induction false} LowBitsAt(q: seq<int>, h: nat, quarter: nat, l: nat)
    requires SixBitNumbers(q) && h < 2 && quarter < 4 && l < 32
    ensures
      var b: int := LowBytes(q)[64 * h + (if quarter % 2 == 0 then l else 32 + l)];
      LowBits(q[128 * h + 32 * quarter + l]) == if quarter < 2 then b % 16 else b / 16
  {
    hide LowBits;
    var r := if quarter % 2 == 0 then l else 32 + l;
    var i := 64 * h + r;
    assert i / 64 == h && i % 64 == r;
    assert LowBytes(q)[i] == LowByte(q, i);
    Nibbles(LowBits(q[128 * h + r]), LowBits(q[128 * h + r + 64]));
  }

  lemma {:induction false} HighBitsAt(q: seq<int>, h: nat, quarter: nat, l: nat)
    requires SixBitNumbers(q) && h < 2 && quarter < 4 && l < 32
    ensures
      var b: int := HighBytes(q)[32 * h + l];
      HighBits(q[128 * h + 32 * quarter + l]) ==
        if quarter == 0 then b % 4 else if quarter == 1 then b / 4 % 4 else if quarter == 2 then b / 16 % 4 else b / 64 % 4
  {
    hide HighBits;
    var i := 32 * h + l;
    var k := 128 * h + l;
    assert i / 32 == h && i % 32 == l;
    assert HighBytes(q)[i] == HighByte(q, i);
    Pairs(HighBits(q[k]), HighBits(q[k + 32]), HighBits(q[k + 64]), HighBits(q[k + 96]));
  }

  lemma {:induction false} NumberOfBits(q: int)
    requires -32 <= q <= 31
    ensures SixBits(LowBits(q), HighBits(q)) == q
  {}

  /** A packed block decodes to its numbers, times their scale of sixteen, times the scale of all. */
  lemma {:induction false} PackedQ6K(half: Half, bytes: seq<byte>, off: nat, q: seq<int>, scales: seq<int>, s: nat, k: nat)
    requires SixBitNumbers(q) && SignedScales(scales) && s < 0x1_0000 && k < 256
    requires off + 210 <= |bytes| && bytes[off..off + 210] == PackQ6K(q, scales, s)
    ensures WeightQ6K(BlockQ6KAt(half, bytes, off), k) == half[s] * scales[k / 16] as real * q[k] as real
  {
    hide BlockQ6KAt, PackQ6K, LowBytes, HighBytes, LowBits, HighBits, SixBits;
    PackedParts(half, bytes, off, q, scales, s);
    var h, quarter, l := k / 128, k % 128 / 32, k % 32;
    assert k == 128 * h + 32 * quarter + l && k / 16 == 8 * h + l / 16 + 2 * quarter;
    LowBitsAt(q, h, quarter, l);
    HighBitsAt(q, h, quarter, l);
    NumberOfBits(q[k]);
  }

  function Numbers(block: seq<byte>): (q: seq<int>)
    requires |block| == 210
    ensures SixBitNumbers(q) && forall k :: 0 <= k < 256 ==> q[k] == Unpacked(block, k)
  {
    seq(256, k requires 0 <= k < 256 => Unpacked(block, k))
  }

  /** Every block of 210 bytes is packed. */
  lemma {:induction false} AllPackedQ6K(block: seq<byte>) returns (q: seq<int>, scales: seq<int>, s: nat)
    requires |block| == 210
    ensures SixBitNumbers(q) && SignedScales(scales) && s < 0x1_0000 && PackQ6K(q, scales, s) == block
  {
    hide Unpacked, LowByte, HighByte;
    q := Numbers(block);
    scales := SignedBytes(block[192..208]);
    s := ScaleBits(block[208], block[209]);
    LowBytesBack(block);
    HighBytesBack(block);
    assert SubScaleBytes(scales) == block[192..208];
    assert ScaleBytes(s) == block[208..];
    assert block == block[..128] + block[128..192] + block[192..208] + block[208..];
  }

  lemma {:induction false} LowBytesBack(block: seq<byte>)
    requires |block| == 210
    ensures LowBytes(Numbers(block)) == block[..128]
  {
    hide Unpacked, LowByte;
    forall i | 0 <= i < 128 ensures LowBytes(Numbers(block))[i] == block[i] {
      LowByteBack(block, Numbers(block), i);
    }
  }

  lemma {:induction false} HighBytesBack(block: seq<byte>)
    requires |block| == 210
    ensures HighBytes(Numbers(block)) == block[128..192]
  {
    hide Unpacked, HighByte;
    forall i | 0 <= i < 64 ensures HighBytes(Numbers(block))[i] == block[128 + i] {
      HighByteBack(block, Numbers(block), i);
    }
  }

  /** The low and the high bits a block keeps for weight `k`. */
  function UnpackedLow(block: seq<byte>, k: nat): (bits: nat)
    requires |block| == 210 && k < 256
    ensures bits < 16
  {
    var low: int := block[64 * (k / 128) + k % 64];
    if k % 128 < 64 then low % 16 else low / 16
  }

  function UnpackedHigh(block: seq<byte>, k: nat): (bits: nat)
    requires |block| == 210 && k < 256
    ensures bits < 4
  {
    var high: int := block[128 + 32 * (k / 128) + k % 32];
    var quarter := k % 128 / 32;
    if quarter == 0 then high % 4 else if quarter == 1 then high / 4 % 4 else if quarter == 2 then high / 16 % 4 else high / 64
  }

  /** The number a block keeps for weight `k`. */
  function Unpacked(block: seq<byte>, k: nat): (q: int)
    requires |block| == 210 && k < 256
    ensures -32 <= q <= 31
  {
    UnpackedLow(block, k) + 16 * UnpackedHigh(block, k) - 32
  }

  lemma {:induction false} BitsBack(block: seq<byte>, k: nat)
    requires |block| == 210 && k < 256
    ensures LowBits(Unpacked(block, k)) == UnpackedLow(block, k) && HighBits(Unpacked(block, k)) == UnpackedHigh(block, k)
  {
    hide UnpackedLow, UnpackedHigh;
    Nibbles(UnpackedLow(block, k), UnpackedHigh(block, k));
  }

  lemma {:induction false} LowByteBack(block: seq<byte>, q: seq<int>, i: nat)
    requires |block| == 210 && SixBitNumbers(q) && forall k :: 0 <= k < 256 ==> q[k] == Unpacked(block, k)
    requires i < 128
    ensures LowByte(q, i) == block[i]
  {
    hide LowBits, Unpacked;
    var h, r := i / 64, i % 64;
    LowBitsBack(block, h, r);
    assert i == 64 * h + r;
    assert q[128 * h + r] == Unpacked(block, 128 * h + r) && q[128 * h + r + 64] == Unpacked(block, 128 * h + r + 64);
  }

  lemma {:induction false} LowBitsBack(block: seq<byte>, h: nat, r: nat)
    requires |block| == 210 && h < 2 && r < 64
    ensures LowBits(Unpacked(block, 128 * h + r)) == block[64 * h + r] % 16
    ensures LowBits(Unpacked(block, 128 * h + r + 64)) == block[64 * h + r] / 16
  {
    hide LowBits, Unpacked;
    var k := 128 * h + r;
    BitsBack(block, k);
    BitsBack(block, k + 64);
    assert k / 128 == h && k % 128 == r && k % 64 == r;
    assert (k + 64) / 128 == h && (k + 64) % 128 == r + 64 && (k + 64) % 64 == r;
  }

  lemma {:induction false} HighByteBack(block: seq<byte>, q: seq<int>, i: nat)
    requires |block| == 210 && SixBitNumbers(q) && forall k :: 0 <= k < 256 ==> q[k] == Unpacked(block, k)
    requires i < 64
    ensures HighByte(q, i) == block[128 + i]
  {
    var h, l := i / 32, i % 32;
    var k := 128 * h + l;
    var b: int := block[128 + i];
    HighBitsBack(block, h, 0, l);
    HighBitsBack(block, h, 1, l);
    HighBitsBack(block, h, 2, l);
    HighBitsBack(block, h, 3, l);
    FourPairs(b);
    hide Unpacked, HighBits;
    assert i == 32 * h + l && q[k] == Unpacked(block, k);
    assert HighByte(q, i) == HighBits(q[k]) + 4 * HighBits(q[k + 32]) + 16 * HighBits(q[k + 64]) + 64 * HighBits(q[k + 96]);
  }

  lemma {:induction false} FourPairs(b: int)
    requires 0 <= b < 256
    ensures b == b % 4 + 4 * (b / 4 % 4) + 16 * (b / 16 % 4) + 64 * (b / 64)
  {}

  lemma {:induction false} HighBitsBack(block: seq<byte>, h: nat, quarter: nat, l: nat)
    requires |block| == 210 && h < 2 && quarter < 4 && l < 32
    ensures
      var b: int := block[128 + 32 * h + l];
      HighBits(Unpacked(block, 128 * h + 32 * quarter + l)) ==
        if quarter == 0 then b % 4 else if quarter == 1 then b / 4 % 4 else if quarter == 2 then b / 16 % 4 else b / 64
  {
    hide HighBits, Unpacked;
    QuarterPlace(h, quarter, l);
    BitsBack(block, 128 * h + 32 * quarter + l);
  }

  // ---------------------------------------------------------------------------------------------
  // Rows
  // ---------------------------------------------------------------------------------------------

  /** What one packed block holds: numbers, the scales of sixteen (Q6_K only), and the scale of all. */
  datatype Block = Block(q: seq<int>, scales: seq<int>, s: nat)

  predicate FitsBlock(format: Format, block: Block) {
    match format
    case Q4_0 => FitsQ4_0(block.q, block.s)
    case Q6_K => SixBitNumbers(block.q) && SignedScales(block.scales) && block.s < 0x1_0000
  }

  function PackBlock(format: Format, block: Block): seq<byte>
    requires FitsBlock(format, block)
  {
    match format
    case Q4_0 => PackQ4_0(block.q, block.s)
    case Q6_K => PackQ6K(block.q, block.scales, block.s)
  }

  /** `blocks` packed one after the other. */
  function PackRow(format: Format, blocks: seq<Block>): (bytes: seq<byte>)
    requires forall b :: 0 <= b < |blocks| ==> FitsBlock(format, blocks[b])
    ensures |bytes| == RowBytes(format, |blocks|)
  {
    if blocks == [] then []
    else
      var last := |blocks| - 1;
      PackRow(format, blocks[..last]) + PackBlock(format, blocks[last])
  }

  lemma {:induction false} BlockInRow(format: Format, blocks: seq<Block>, b: nat)
    requires b < |blocks| && forall i :: 0 <= i < |blocks| ==> FitsBlock(format, blocks[i])
    ensures RowBytes(format, b + 1) <= |PackRow(format, blocks)|
    ensures PackRow(format, blocks)[RowBytes(format, b)..RowBytes(format, b + 1)] == PackBlock(format, blocks[b])
  {
    hide PackBlock, FitsBlock;
    var last := |blocks| - 1;
    var front, block := PackRow(format, blocks[..last]), PackBlock(format, blocks[last]);
    assert PackRow(format, blocks) == front + block;
    if b < last {
      BlockInRow(format, blocks[..last], b);
      var lo, hi := RowBytes(format, b), RowBytes(format, b + 1);
      assert (front + block)[lo..hi] == front[lo..hi];
    } else {
      assert |front| == RowBytes(format, b) && (front + block)[|front|..] == block;
      assert |front + block| == RowBytes(format, b + 1);
    }
  }

  /** The weight that number `j` of a block stands for. */
  function WeightOf(format: Format, half: Half, block: Block, j: nat): real
    requires FitsBlock(format, block) && j < RowWidth(format, 1)
  {
    match format
    case Q4_0 => block.q[j] as real * half[block.s]
    case Q6_K => half[block.s] * block.scales[j / 16] as real * block.q[j] as real
  }

  /** A packed row decodes, number by number, to what its blocks stand for. */
  lemma {:induction false} PackedRow(format: Format, half: Half, blocks: seq<Block>, b: nat, j: nat)
    requires forall i :: 0 <= i < |blocks| ==> FitsBlock(format, blocks[i])
    requires b < |blocks| && j < RowWidth(format, 1)
    ensures RowWidth(format, b) + j < RowWidth(format, |blocks|)
    ensures DecodedRow(format, half, PackRow(format, blocks), |blocks|)[RowWidth(format, b) + j]
         == WeightOf(format, half, blocks[b], j)
  {
    hide DecodedRow, PackRow, WeightQ4_0, WeightQ6K, BlockQ4_0At, BlockQ6KAt;
    BlockInRow(format, blocks, b);
    var bytes := PackRow(format, blocks);
    var block := blocks[b];
    match format
    case Q4_0 =>
      PlaceQ4_0(half, bytes, |blocks|, b, j);
      PackedQ4_0(half, bytes, 18 * b, block.q, block.s, j);
    case Q6_K =>
      PlaceQ6K(half, bytes, |blocks|, b, j);
      PackedQ6K(half, bytes, 210 * b, block.q, block.scales, block.s, j);
  }
}
