/**
 * Quantized rows: what each stored block means, the block decoders, and the fused row
 * dot-products that never materialize a decoded row. Arithmetic is exact.
 */
module Quant {
  import opened Prelude

  /** What each of the 65536 half-precision scales stands for; every kernel reads scales the same way. */
  type Half = values: seq<real> | |values| == 0x1_0000 witness seq(0x1_0000, _ => 0.0)

  /** The scale in two bytes, low byte first. */
  function ScaleOf(half: Half, low: byte, high: byte): real {
    half[low + 256 * high]
  }

  datatype QuantError = WrongShape | NotDivisible | Truncated

  // ---------------------------------------------------------------------------------------------
  // Dot products
  // ---------------------------------------------------------------------------------------------

  function Times(a: real, b: real): real {
    a * b
  }

  /** The sum of `w[k] * x[k]` for `lo <= k < hi`. */
  function Dot(w: seq<real>, x: seq<real>, lo: nat, hi: nat): real
    requires lo <= hi <= |w| && hi <= |x|
  {
    if lo == hi then 0.0 else Dot(w, x, lo, hi - 1) + Times(w[hi - 1], x[hi - 1])
  }

  lemma {:induction false} DotSplit(w: seq<real>, x: seq<real>, lo: nat, mid: nat, hi: nat)
    requires lo <= mid <= hi <= |w| && hi <= |x|
    ensures Dot(w, x, lo, hi) == Dot(w, x, lo, mid) + Dot(w, x, mid, hi)
    decreases hi
  {
    if mid < hi {
      DotSplit(w, x, lo, mid, hi - 1);
    }
  }

  lemma {:induction false} DotAgrees(w: seq<real>, v: seq<real>, x: seq<real>, n: nat)
    requires n <= |w| && n <= |v| && n <= |x| && forall k :: 0 <= k < n ==> w[k] == v[k]
    ensures Dot(w, x, 0, n) == Dot(v, x, 0, n)
  {
    if n > 0 {
      DotAgrees(w, v, x, n - 1);
    }
  }

  // ---------------------------------------------------------------------------------------------
  // Q4_0: 32 weights in 18 bytes
  // ---------------------------------------------------------------------------------------------

  datatype BlockQ4_0 = BlockQ4_0(d: real, qs: seq<byte>)

  predicate ValidQ4_0(block: BlockQ4_0) {
    |block.qs| == 16
  }

  function LowWeight(block: BlockQ4_0, j: nat): real
    requires ValidQ4_0(block) && j < 16
  {
    var b: int := block.qs[j];
    Times((b % 16 - 8) as real, block.d)
  }

  function HighWeight(block: BlockQ4_0, j: nat): real
    requires ValidQ4_0(block) && j < 16
  {
    var b: int := block.qs[j];
    Times((b / 16 - 8) as real, block.d)
  }

  /** The j-th weight: low nibbles first, then high nibbles, each centred on eight. */
  function WeightQ4_0(block: BlockQ4_0, j: nat): real
    requires ValidQ4_0(block) && j < 32
  {
    if j < 16 then LowWeight(block, j) else HighWeight(block, j - 16)
  }

  function BlockQ4_0At(half: Half, bytes: seq<byte>, off: nat): (block: BlockQ4_0)
    requires off + 18 <= |bytes|
    ensures ValidQ4_0(block)
  {
    BlockQ4_0(ScaleOf(half, bytes[off], bytes[off + 1]), bytes[off + 2..off + 18])
  }

  // ---------------------------------------------------------------------------------------------
  // Q6_K: 256 weights in 210 bytes
  // ---------------------------------------------------------------------------------------------

  datatype BlockQ6K = BlockQ6K(ql: seq<byte>, qh: seq<byte>, scales: seq<int>, d: real)

  predicate ValidQ6K(block: BlockQ6K) {
    |block.ql| == 128 && |block.qh| == 64 && |block.scales| == 16
  }

  /** A byte read as `i8`. */
  function Signed(b: byte): int {
    if b < 128 then b else b - 256
  }

  /** Four bits from `ql`, two more from `qh`, centred on thirty-two. */
  function SixBits(low: int, high: int): int {
    low + 16 * high - 32
  }

  function Scaled(d: real, scale: int, q: int): real {
    d * scale as real * q as real
  }

  /** The six-bit number a quarter keeps at place `l` of half `h`. */
  function QuarterBits(block: BlockQ6K, h: nat, quarter: nat, l: nat): int
    requires ValidQ6K(block) && h < 2 && quarter < 4 && l < 32
  {
    var nibbles: int := block.ql[64 * h + (if quarter % 2 == 0 then l else 32 + l)];
    var high: int := block.qh[32 * h + l];
    SixBits(
      if quarter < 2 then nibbles % 16 else nibbles / 16,
      if quarter == 0 then high % 4
      else if quarter == 1 then high / 4 % 4
      else if quarter == 2 then high / 16 % 4
      else high / 64 % 4)
  }

  function QuarterScale(block: BlockQ6K, h: nat, quarter: nat, l: nat): int
    requires ValidQ6K(block) && h < 2 && quarter < 4 && l < 32
  {
    block.scales[8 * h + l / 16 + 2 * quarter]
  }

  function QuarterWeight(block: BlockQ6K, h: nat, quarter: nat, l: nat): real
    requires ValidQ6K(block) && h < 2 && quarter < 4 && l < 32
  {
    Scaled(block.d, QuarterScale(block, h, quarter, l), QuarterBits(block, h, quarter, l))
  }

  /**
   * The k-th weight. Each half of 128 has four quarters of 32; a quarter takes the low or high
   * nibbles of one of two runs of `ql`, its own two bits of every `qh` byte, and two scales.
   */
  function WeightQ6K(block: BlockQ6K, k: nat): real
    requires ValidQ6K(block) && k < 256
  {
    QuarterWeight(block, k / 128, k % 128 / 32, k % 32)
  }

  lemma {:induction false} QuarterPlace(h: nat, quarter: nat, l: nat)
    requires quarter < 4 && l < 32
    ensures
      var k := 128 * h + 32 * quarter + l;
      k / 128 == h && k % 128 / 32 == quarter && k % 32 == l
  {}

  lemma {:induction false} WeightInQuarter(block: BlockQ6K, h: nat, quarter: nat, l: nat)
    requires ValidQ6K(block) && h < 2 && quarter < 4 && l < 32
    ensures WeightQ6K(block, 128 * h + 32 * quarter + l) == QuarterWeight(block, h, quarter, l)
  {
    hide QuarterWeight;
    QuarterPlace(h, quarter, l);
  }

  function SignedBytes(bytes: seq<byte>): (scales: seq<int>)
    ensures |scales| == |bytes| && forall i :: 0 <= i < |bytes| ==> scales[i] == Signed(bytes[i])
  {
    seq(|bytes|, i requires 0 <= i < |bytes| => Signed(bytes[i]))
  }

  function BlockQ6KAt(half: Half, bytes: seq<byte>, off: nat): (block: BlockQ6K)
    requires off + 210 <= |bytes|
    ensures ValidQ6K(block)
  {
    BlockQ6K(bytes[off..off + 128], bytes[off + 128..off + 192],
             SignedBytes(bytes[off + 192..off + 208]), ScaleOf(half, bytes[off + 208], bytes[off + 209]))
  }

  // ---------------------------------------------------------------------------------------------
  // Rows
  // ---------------------------------------------------------------------------------------------

  datatype Format = Q4_0 | Q6_K

  /** How many weights `blocks` blocks hold, and in how many bytes. */
  function RowWidth(format: Format, blocks: nat): nat {
    if format.Q4_0? then 32 * blocks else 256 * blocks
  }

  function RowBytes(format: Format, blocks: nat): nat {
    if format.Q4_0? then 18 * blocks else 210 * blocks
  }

  /** The k-th weight of a row of blocks. */
  function WeightAt(format: Format, half: Half, bytes: seq<byte>, blocks: nat, k: nat): real
    requires RowBytes(format, blocks) <= |bytes| && k < RowWidth(format, blocks)
  {
    match format
    case Q4_0 => assert k / 32 + 1 <= blocks; WeightQ4_0(BlockQ4_0At(half, bytes, 18 * (k / 32)), k % 32)
    case Q6_K => assert k / 256 + 1 <= blocks; WeightQ6K(BlockQ6KAt(half, bytes, 210 * (k / 256)), k % 256)
  }

  /** What a decoded row is: every weight in order. */
  function DecodedRow(format: Format, half: Half, bytes: seq<byte>, blocks: nat): (weights: seq<real>)
    requires RowBytes(format, blocks) <= |bytes|
    ensures |weights| == RowWidth(format, blocks)
  {
    seq(RowWidth(format, blocks), k requires 0 <= k < RowWidth(format, blocks) => WeightAt(format, half, bytes, blocks, k))
  }

  lemma {:induction false} DecodedAt(format: Format, half: Half, bytes: seq<byte>, blocks: nat, k: nat)
    requires RowBytes(format, blocks) <= |bytes| && k < RowWidth(format, blocks)
    ensures DecodedRow(format, half, bytes, blocks)[k] == WeightAt(format, half, bytes, blocks, k)
  {}

  lemma {:induction false} BlockPlace32(b: nat, j: nat)
    requires j < 32
    ensures (32 * b + j) / 32 == b && (32 * b + j) % 32 == j
  {}

  lemma {:induction false} BlockPlace256(b: nat, r: nat)
    requires r < 256
    ensures (256 * b + r) / 256 == b && (256 * b + r) % 256 == r
  {}

  lemma {:induction false} PlaceQ4_0(half: Half, bytes: seq<byte>, blocks: nat, b: nat, j: nat)
    requires 18 * blocks <= |bytes| && b < blocks && j < 32
    ensures DecodedRow(Q4_0, half, bytes, blocks)[32 * b + j] == WeightQ4_0(BlockQ4_0At(half, bytes, 18 * b), j)
  {
    hide WeightQ4_0, BlockQ4_0At;
    BlockPlace32(b, j);
    DecodedAt(Q4_0, half, bytes, blocks, 32 * b + j);
  }

  lemma {:induction false} PlaceQ6K(half: Half, bytes: seq<byte>, blocks: nat, b: nat, r: nat)
    requires 210 * blocks <= |bytes| && b < blocks && r < 256
    ensures DecodedRow(Q6_K, half, bytes, blocks)[256 * b + r] == WeightQ6K(BlockQ6KAt(half, bytes, 210 * b), r)
  {
    hide WeightQ6K, BlockQ6KAt;
    BlockPlace256(b, r);
    DecodedAt(Q6_K, half, bytes, blocks, 256 * b + r);
  }

  /** The reference: decode the row, then multiply and add in order. */
  function RowDot(format: Format, half: Half, bytes: seq<byte>, blocks: nat, x: seq<real>): real
    requires RowBytes(format, blocks) <= |bytes| && RowWidth(format, blocks) <= |x|
  {
    Dot(DecodedRow(format, half, bytes, blocks), x, 0, RowWidth(format, blocks))
  }

  lemma {:induction false} RowDotNone(format: Format, half: Half, bytes: seq<byte>, x: seq<real>)
    ensures RowDot(format, half, bytes, 0, x) == 0.0
  {}

  /** One more block adds its own part of the decoded row. */
  lemma {:induction false} RowDotNext(format: Format, half: Half, bytes: seq<byte>, b: nat, x: seq<real>)
    requires RowBytes(format, b + 1) <= |bytes| && RowWidth(format, b + 1) <= |x|
    ensures RowDot(format, half, bytes, b + 1, x)
         == RowDot(format, half, bytes, b, x)
            + Dot(DecodedRow(format, half, bytes, b + 1), x, RowWidth(format, b), RowWidth(format, b + 1))
  {
    var v, w := DecodedRow(format, half, bytes, b), DecodedRow(format, half, bytes, b + 1);
    forall k | 0 <= k < RowWidth(format, b) ensures v[k] == w[k] {
      DecodedAt(format, half, bytes, b, k);
      DecodedAt(format, half, bytes, b + 1, k);
    }
    DotAgrees(v, w, x, RowWidth(format, b));
    DotSplit(w, x, 0, RowWidth(format, b), RowWidth(format, b + 1));
  }

  // ---------------------------------------------------------------------------------------------
  // The block decoders
  // ---------------------------------------------------------------------------------------------

  method DequantizeQ4_0(block: BlockQ4_0, out: array<real>)
    requires ValidQ4_0(block) && out.Length == 32
    modifies out
    ensures forall j :: 0 <= j < 32 ==> out[j] == WeightQ4_0(block, j)
  {
    for j := 0 to 16
      invariant forall i :: 0 <= i < j ==> out[i] == LowWeight(block, i)
      invariant forall i :: 16 <= i < 16 + j ==> out[i] == HighWeight(block, i - 16)
    {
      var b: int := block.qs[j];
      var q0 := b % 16 - 8;
      var q1 := b / 16 - 8;
      out[j] := q0 as real * block.d;
      out[16 + j] := q1 as real * block.d;
    }
  }

  /** Place `l` of half `h` holds its weight in every quarter. */
  predicate PlaceDone(block: BlockQ6K, out: seq<real>, h: nat, l: nat)
    requires ValidQ6K(block) && |out| == 256 && h < 2 && l < 32
  {
    && out[128 * h + l] == QuarterWeight(block, h, 0, l)
    && out[128 * h + l + 32] == QuarterWeight(block, h, 1, l)
    && out[128 * h + l + 64] == QuarterWeight(block, h, 2, l)
    && out[128 * h + l + 96] == QuarterWeight(block, h, 3, l)
  }

  /** The four products of one turn, spelled out with the byte positions the loops use. */
  lemma {:induction false} TurnWeights(block: BlockQ6K, h: nat, l: nat)
    requires ValidQ6K(block) && h < 2 && l < 32
    ensures
      var low: int, high: int, qh: int := block.ql[64 * h + l], block.ql[64 * h + 32 + l], block.qh[32 * h + l];
      && QuarterBits(block, h, 0, l) == SixBits(low % 16, qh % 4)
      && QuarterBits(block, h, 1, l) == SixBits(high % 16, qh / 4 % 4)
      && QuarterBits(block, h, 2, l) == SixBits(low / 16, qh / 16 % 4)
      && QuarterBits(block, h, 3, l) == SixBits(high / 16, qh / 64 % 4)
    ensures QuarterScale(block, h, 0, l) == block.scales[8 * h + l / 16]
    ensures QuarterScale(block, h, 1, l) == block.scales[8 * h + l / 16 + 2]
    ensures QuarterScale(block, h, 2, l) == block.scales[8 * h + l / 16 + 4]
    ensures QuarterScale(block, h, 3, l) == block.scales[8 * h + l / 16 + 6]
  {}

  /** One turn of the inner loop. */
  method DequantizePlace(block: BlockQ6K, out: array<real>, h: nat, l: nat, yPos: nat, qlOff: nat, qhOff: nat, scOff: nat)
    requires ValidQ6K(block) && out.Length == 256 && h < 2 && l < 32
    requires yPos == 128 * h && qlOff == 64 * h && qhOff == 32 * h && scOff == 8 * h
    modifies out
    ensures PlaceDone(block, out[..], h, l)
    ensures forall g, i :: 0 <= g < 2 && 0 <= i < 32 && (g != h || i != l) && PlaceDone(block, old(out[..]), g, i) ==>
      PlaceDone(block, out[..], g, i)
  {
    TurnWeights(block, h, l);
    var low: int := block.ql[qlOff + l];
    var high: int := block.ql[qlOff + 32 + l];
    var qh: int := block.qh[qhOff + l];
    var q1 := SixBits(low % 16, qh % 4);
    var q2 := SixBits(high % 16, qh / 4 % 4);
    var q3 := SixBits(low / 16, qh / 16 % 4);
    var q4 := SixBits(high / 16, qh / 64 % 4);
    var place := scOff + l / 16;
    var w1 := TurnWeight(block, h, 0, l, block.scales[place], q1);
    var w2 := TurnWeight(block, h, 1, l, block.scales[place + 2], q2);
    var w3 := TurnWeight(block, h, 2, l, block.scales[place + 4], q3);
    var w4 := TurnWeight(block, h, 3, l, block.scales[place + 6], q4);
    out[yPos + l] := w1;
    out[yPos + l + 32] := w2;
    out[yPos + l + 64] := w3;
    out[yPos + l + 96] := w4;
  }

  method TurnWeight(block: BlockQ6K, ghost h: nat, ghost quarter: nat, ghost l: nat, scale: int, q: int)
    returns (w: real)
    requires ValidQ6K(block) && h < 2 && quarter < 4 && l < 32
    requires scale == QuarterScale(block, h, quarter, l) && q == QuarterBits(block, h, quarter, l)
    ensures w == QuarterWeight(block, h, quarter, l)
  {
    w := block.d * scale as real * q as real;
  }

  method DequantizeQ6K(block: BlockQ6K, out: array<real>)
    requires ValidQ6K(block) && out.Length == 256
    modifies out
    ensures forall k :: 0 <= k < 256 ==> out[k] == WeightQ6K(block, k)
  {
    var yPos, qlOff, qhOff, scOff: nat := 0, 0, 0, 0;
    for h := 0 to 2
      invariant yPos == 128 * h && qlOff == 64 * h && qhOff == 32 * h && scOff == 8 * h
      invariant forall g, l :: 0 <= g < h && 0 <= l < 32 ==> PlaceDone(block, out[..], g, l)
    {
      for l := 0 to 32
        invariant forall g, i :: 0 <= g < h && 0 <= i < 32 ==> PlaceDone(block, out[..], g, i)
        invariant forall i :: 0 <= i < l ==> PlaceDone(block, out[..], h, i)
      {
        DequantizePlace(block, out, h, l, yPos, qlOff, qhOff, scOff);
      }
      yPos, qlOff, qhOff, scOff := yPos + 128, qlOff + 64, qhOff + 32, scOff + 8;
    }
    forall k | 0 <= k < 256 ensures out[k] == WeightQ6K(block, k) {
      assert PlaceDone(block, out[..], k / 128, k % 32);
      PlaceGivesWeight(block, out[..], k);
    }
  }

  lemma {:induction false} PlaceGivesWeight(block: BlockQ6K, out: seq<real>, k: nat)
    requires ValidQ6K(block) && |out| == 256 && k < 256 && PlaceDone(block, out, k / 128, k % 32)
    ensures out[k] == WeightQ6K(block, k)
  {
    var h, quarter, l := k / 128, k % 128 / 32, k % 32;
    SplitIndex(k);
    if quarter == 0 {
      assert out[k] == QuarterWeight(block, h, 0, l);
    } else if quarter == 1 {
      assert out[k] == QuarterWeight(block, h, 1, l);
    } else if quarter == 2 {
      assert out[k] == QuarterWeight(block, h, 2, l);
    } else {
      assert out[k] == QuarterWeight(block, h, 3, l);
    }
  }

  lemma {:induction false} SplitIndex(k: nat)
    requires k < 256
    ensures k == 128 * (k / 128) + k % 32 + 32 * (k % 128 / 32) && k % 128 / 32 < 4
  {}

  // ---------------------------------------------------------------------------------------------
  // The row decoders
  // ---------------------------------------------------------------------------------------------

  /** One block into its place in the row. */
  method DecodeBlockInto(format: Format, half: Half, bytes: seq<byte>, out: array<real>, i: nat, ghost blocks: nat)
    requires i < blocks && RowBytes(format, blocks) <= |bytes| && RowWidth(format, blocks) <= out.Length
    modifies out
    ensures forall k :: RowWidth(format, i) <= k < RowWidth(format, i + 1) ==>
      out[k] == WeightAt(format, half, bytes, blocks, k)
    ensures forall k :: 0 <= k < out.Length && !(RowWidth(format, i) <= k < RowWidth(format, i + 1)) ==>
      out[k] == old(out[k])
  {
    match format
    case Q4_0 =>
      var block := BlockQ4_0At(half, bytes, 18 * i);
      var tmp := new real[32];
      DequantizeQ4_0(block, tmp);
      forall j | 0 <= j < 32 {
        out[32 * i + j] := tmp[j];
      }
      forall k | 32 * i <= k < 32 * i + 32 ensures out[k] == WeightAt(format, half, bytes, blocks, k) {
        assert k / 32 == i && k % 32 == k - 32 * i;
      }
    case Q6_K =>
      var block := BlockQ6KAt(half, bytes, 210 * i);
      var tmp := new real[256];
      DequantizeQ6K(block, tmp);
      forall j | 0 <= j < 256 {
        out[256 * i + j] := tmp[j];
      }
      forall k | 256 * i <= k < 256 * i + 256 ensures out[k] == WeightAt(format, half, bytes, blocks, k) {
        assert k / 256 == i && k % 256 == k - 256 * i;
      }
  }

  /** Decodes `n` weights into the front of a caller's buffer; a refused row leaves the buffer alone. */
  method DequantizeRow(format: Format, half: Half, bytes: seq<byte>, n: nat, out: array<real>)
    returns (r: Result<(), QuantError>)
    requires n <= out.Length
    modifies out
    ensures r.Ok? <==> n % RowWidth(format, 1) == 0 && RowBytes(format, n / RowWidth(format, 1)) <= |bytes|
    ensures r.Err? ==> out[..] == old(out[..])
    ensures r.Ok? ==> out[..n] == DecodedRow(format, half, bytes, n / RowWidth(format, 1))
    ensures forall k :: n <= k < out.Length ==> out[k] == old(out[k])
  {
    if n % RowWidth(format, 1) != 0 {
      return Err(NotDivisible);
    }
    var blocks := n / RowWidth(format, 1);
    if |bytes| < RowBytes(format, blocks) {
      return Err(Truncated);
    }
    assert RowWidth(format, blocks) == n;
    for i := 0 to blocks
      invariant forall k :: 0 <= k < RowWidth(format, i) ==> out[k] == WeightAt(format, half, bytes, blocks, k)
      invariant forall k :: RowWidth(format, i) <= k < out.Length ==> out[k] == old(out[k])
    {
      DecodeBlockInto(format, half, bytes, out, i, blocks);
    }
    r := Ok(());
  }

  // ---------------------------------------------------------------------------------------------
  // The fused row dot-products
  // ---------------------------------------------------------------------------------------------

  lemma {:induction false} DotNext(w: seq<real>, x: seq<real>, lo: nat, hi: nat)
    requires lo <= hi < |w| && hi < |x|
    ensures Dot(w, x, lo, hi + 1) == Dot(w, x, lo, hi) + Times(w[hi], x[hi])
  {}

  /** The two weights of one byte, where they stand in the decoded row. */
  lemma {:induction false} NibbleWeights(half: Half, rowBytes: seq<byte>, blocks: nat, b: nat, j: nat)
    requires RowBytes(Q4_0, blocks) <= |rowBytes| && b < blocks && j < 16
    ensures
      var w := DecodedRow(Q4_0, half, rowBytes, blocks);
      var block := BlockQ4_0At(half, rowBytes, 18 * b);
      w[32 * b + j] == LowWeight(block, j) && w[32 * b + 16 + j] == HighWeight(block, j)
  {
    PlaceQ4_0(half, rowBytes, blocks, b, j);
    PlaceQ4_0(half, rowBytes, blocks, b, 16 + j);
  }

  method AddNibble(start: real, q: int, d: real, x: real, ghost weight: real) returns (sum: real)
    requires weight == Times(q as real, d)
    ensures sum == start + Times(weight, x)
  {
    sum := start + q as real * d * x;
  }

  /** The two products of one byte. */
  function PairSum(w: seq<real>, x: seq<real>, at: nat, j: nat): real
    requires at + 32 <= |w| && at + 32 <= |x| && j < 16
  {
    Times(w[at + j], x[at + j]) + Times(w[at + 16 + j], x[at + 16 + j])
  }

  /** Two running dot-products, over the low and the high nibbles of the block at `at`. */
  function PairDots(w: seq<real>, x: seq<real>, at: nat, j: nat): real
    requires at + 32 <= |w| && at + 32 <= |x| && j <= 16
  {
    Dot(w, x, at, at + j) + Dot(w, x, at + 16, at + 16 + j)
  }

  lemma {:induction false} PairDotsNone(w: seq<real>, x: seq<real>, at: nat)
    requires at + 32 <= |w| && at + 32 <= |x|
    ensures PairDots(w, x, at, 0) == 0.0
  {}

  lemma {:induction false} PairDotsAll(w: seq<real>, x: seq<real>, at: nat)
    requires at + 32 <= |w| && at + 32 <= |x|
    ensures PairDots(w, x, at, 16) == Dot(w, x, at, at + 32)
  {
    DotSplit(w, x, at, at + 16, at + 32);
  }

  lemma {:induction false} PairDotsNext(w: seq<real>, x: seq<real>, at: nat, j: nat)
    requires at + 32 <= |w| && at + 32 <= |x| && j < 16
    ensures PairDots(w, x, at, j + 1) == PairDots(w, x, at, j) + PairSum(w, x, at, j)
  {
    DotNext(w, x, at, at + j);
    DotNext(w, x, at + 16, at + 16 + j);
  }

  /** One turn of the inner loop. */
  method AddPair(half: Half, rowBytes: seq<byte>, off: nat, d: real, j: nat, x: seq<real>, xOffset: nat, start: real,
                 ghost w: seq<real>)
    returns (sum: real)
    requires off + 18 <= |rowBytes| && j < 16 && d == BlockQ4_0At(half, rowBytes, off).d
    requires xOffset + 32 <= |x| && xOffset + 32 <= |w|
    requires w[xOffset + j] == LowWeight(BlockQ4_0At(half, rowBytes, off), j)
    requires w[xOffset + 16 + j] == HighWeight(BlockQ4_0At(half, rowBytes, off), j)
    ensures sum == start + PairSum(w, x, xOffset, j)
  {
    var nibbles: int := rowBytes[off + 2 + j];
    assert nibbles == BlockQ4_0At(half, rowBytes, off).qs[j];
    var q0 := nibbles % 16 - 8;
    var q1 := nibbles / 16 - 8;
    assert w[xOffset + j] == Times(q0 as real, d) && w[xOffset + 16 + j] == Times(q1 as real, d);
    hide LowWeight, HighWeight, BlockQ4_0At, Times;
    sum := AddNibble(start, q0, d, x[xOffset + j], w[xOffset + j]);
    sum := AddNibble(sum, q1, d, x[xOffset + 16 + j], w[xOffset + 16 + j]);
  }

  /** The inner loop over one block's bytes, two products a byte. */
  method AddBlockQ4_0(half: Half, rowBytes: seq<byte>, blocks: nat, b: nat, x: seq<real>, start: real, ghost w: seq<real>)
    returns (sum: real)
    requires RowBytes(Q4_0, blocks) <= |rowBytes| && b < blocks && RowWidth(Q4_0, blocks) <= |x|
    requires w == DecodedRow(Q4_0, half, rowBytes, blocks)
    ensures sum == start + Dot(w, x, 32 * b, 32 * b + 32)
  {
    hide WeightAt, DecodedRow, Dot, PairSum, PairDots, Times, LowWeight, HighWeight;
    var off, xOffset := 18 * b, 32 * b;
    var d := ScaleOf(half, rowBytes[off], rowBytes[off + 1]);
    assert d == BlockQ4_0At(half, rowBytes, off).d;
    sum := start;
    PairDotsNone(w, x, xOffset);
    PairDotsAll(w, x, xOffset);
    for j := 0 to 16
      invariant sum == start + PairDots(w, x, xOffset, j)
    {
      NibbleWeights(half, rowBytes, blocks, b, j);
      PairDotsNext(w, x, xOffset, j);
      hide LowWeight, HighWeight, BlockQ4_0At;
      sum := AddPair(half, rowBytes, off, d, j, x, xOffset, sum, w);
    }
  }

  /** Low and high nibbles are multiplied in turn; the sum is that of the decoded row. */
  method RowDotQ4_0(half: Half, rowBytes: seq<byte>, blocksPerRow: nat, x: seq<real>) returns (sum: real)
    requires RowBytes(Q4_0, blocksPerRow) <= |rowBytes| && RowWidth(Q4_0, blocksPerRow) <= |x|
    ensures sum == RowDot(Q4_0, half, rowBytes, blocksPerRow, x)
  {
    RowDotNone(Q4_0, half, rowBytes, x);
    sum := 0.0;
    hide RowDot, Dot, DecodedRow, WeightAt;
    for b := 0 to blocksPerRow
      invariant sum == RowDot(Q4_0, half, rowBytes, b, x)
    {
      RowDotNext(Q4_0, half, rowBytes, b, x);
      sum := AddBlockQ4_0(half, rowBytes, b + 1, b, x, sum, DecodedRow(Q4_0, half, rowBytes, b + 1));
    }
  }

  // ---------------------------------------------------------------------------------------------
  // Q6_K: four quarters of a half at once
  // ---------------------------------------------------------------------------------------------

  /** Four running dot-products, one for each quarter of the half that starts at `at`. */
  function QuarterDots(w: seq<real>, x: seq<real>, at: nat, l: nat): real
    requires at + 128 <= |w| && at + 128 <= |x| && l <= 32
  {
    Dot(w, x, at, at + l) + Dot(w, x, at + 32, at + 32 + l) + Dot(w, x, at + 64, at + 64 + l) + Dot(w, x, at + 96, at + 96 + l)
  }

  /** The four products of one turn. */
  function TurnSum(w: seq<real>, x: seq<real>, at: nat, l: nat): real
    requires at + 128 <= |w| && at + 128 <= |x| && l < 32
  {
    Times(w[at + l], x[at + l]) + Times(w[at + 32 + l], x[at + 32 + l])
    + Times(w[at + 64 + l], x[at + 64 + l]) + Times(w[at + 96 + l], x[at + 96 + l])
  }

  lemma {:induction false} QuarterDotsNext(w: seq<real>, x: seq<real>, at: nat, l: nat)
    requires at + 128 <= |w| && at + 128 <= |x| && l < 32
    ensures QuarterDots(w, x, at, l + 1) == QuarterDots(w, x, at, l) + TurnSum(w, x, at, l)
  {
    DotNext(w, x, at, at + l);
    DotNext(w, x, at + 32, at + 32 + l);
    DotNext(w, x, at + 64, at + 64 + l);
    DotNext(w, x, at + 96, at + 96 + l);
  }

  lemma {:induction false} QuarterDotsNone(w: seq<real>, x: seq<real>, at: nat)
    requires at + 128 <= |w| && at + 128 <= |x|
    ensures QuarterDots(w, x, at, 0) == 0.0
  {}

  lemma {:induction false} QuarterDotsAll(w: seq<real>, x: seq<real>, at: nat)
    requires at + 128 <= |w| && at + 128 <= |x|
    ensures QuarterDots(w, x, at, 32) == Dot(w, x, at, at + 128)
  {
    DotSplit(w, x, at, at + 32, at + 128);
    DotSplit(w, x, at + 32, at + 64, at + 128);
    DotSplit(w, x, at + 64, at + 96, at + 128);
  }

  /** The four weights of one turn, where they stand in the decoded row. */
  lemma {:induction false} TurnPlaces(half: Half, rowBytes: seq<byte>, blocks: nat, b: nat, h: nat, l: nat)
    requires RowBytes(Q6_K, blocks) <= |rowBytes| && b < blocks && h < 2 && l < 32
    ensures
      var w := DecodedRow(Q6_K, half, rowBytes, blocks);
      var block := BlockQ6KAt(half, rowBytes, 210 * b);
      var at := 256 * b + 128 * h;
      && w[at + l] == QuarterWeight(block, h, 0, l) && w[at + 32 + l] == QuarterWeight(block, h, 1, l)
      && w[at + 64 + l] == QuarterWeight(block, h, 2, l) && w[at + 96 + l] == QuarterWeight(block, h, 3, l)
  {
    TurnPlace(half, rowBytes, blocks, b, h, 0, l);
    TurnPlace(half, rowBytes, blocks, b, h, 1, l);
    TurnPlace(half, rowBytes, blocks, b, h, 2, l);
    TurnPlace(half, rowBytes, blocks, b, h, 3, l);
  }

  lemma {:induction false} TurnPlace(half: Half, rowBytes: seq<byte>, blocks: nat, b: nat, h: nat, quarter: nat, l: nat)
    requires RowBytes(Q6_K, blocks) <= |rowBytes| && b < blocks && h < 2 && quarter < 4 && l < 32
    ensures
      var w := DecodedRow(Q6_K, half, rowBytes, blocks);
      w[256 * b + 128 * h + 32 * quarter + l] == QuarterWeight(BlockQ6KAt(half, rowBytes, 210 * b), h, quarter, l)
  {
    hide DecodedRow, BlockQ6KAt, WeightQ6K, QuarterWeight;
    WeightInQuarter(BlockQ6KAt(half, rowBytes, 210 * b), h, quarter, l);
    PlaceQ6K(half, rowBytes, blocks, b, 128 * h + 32 * quarter + l);
  }

  /** The scale is applied before the number here and after it in the decoder. */
  method AddProduct(start: real, d: real, scale: int, q: int, x: real, ghost weight: real) returns (sum: real)
    requires weight == Scaled(d, scale, q)
    ensures sum == start + Times(weight, x)
  {
    var sc := scale as real * d;
    sum := start + sc * (q as real) * x;
  }

  /** The block's parts are bytes of the row. */
  lemma {:induction false} RawBits(half: Half, rowBytes: seq<byte>, off: nat, h: nat, l: nat)
    requires off + 210 <= |rowBytes| && h < 2 && l < 32
    ensures
      var block := BlockQ6KAt(half, rowBytes, off);
      var low: int, high: int, qh: int :=
        rowBytes[off + 64 * h + l], rowBytes[off + 64 * h + 32 + l], rowBytes[off + 128 + 32 * h + l];
      && QuarterBits(block, h, 0, l) == SixBits(low % 16, qh % 4)
      && QuarterBits(block, h, 1, l) == SixBits(high % 16, qh / 4 % 4)
      && QuarterBits(block, h, 2, l) == SixBits(low / 16, qh / 16 % 4)
      && QuarterBits(block, h, 3, l) == SixBits(high / 16, qh / 64 % 4)
  {
    var block := BlockQ6KAt(half, rowBytes, off);
    assert block.ql[64 * h + l] == rowBytes[off + 64 * h + l];
    assert block.ql[64 * h + 32 + l] == rowBytes[off + 64 * h + 32 + l];
    assert block.qh[32 * h + l] == rowBytes[off + 128 + 32 * h + l];
    hide QuarterBits, SixBits, BlockQ6KAt;
    TurnWeights(block, h, l);
  }

  lemma {:induction false} RawScales(half: Half, rowBytes: seq<byte>, off: nat, h: nat, l: nat)
    requires off + 210 <= |rowBytes| && h < 2 && l < 32
    ensures
      var block := BlockQ6KAt(half, rowBytes, off);
      var place := off + 192 + 8 * h + l / 16;
      && QuarterScale(block, h, 0, l) == Signed(rowBytes[place])
      && QuarterScale(block, h, 1, l) == Signed(rowBytes[place + 2])
      && QuarterScale(block, h, 2, l) == Signed(rowBytes[place + 4])
      && QuarterScale(block, h, 3, l) == Signed(rowBytes[place + 6])
  {
    var block := BlockQ6KAt(half, rowBytes, off);
    var place := 8 * h + l / 16;
    assert block.scales[place] == Signed(rowBytes[off + 192 + place]);
    assert block.scales[place + 2] == Signed(rowBytes[off + 192 + place + 2]);
    assert block.scales[place + 4] == Signed(rowBytes[off + 192 + place + 4]);
    assert block.scales[place + 6] == Signed(rowBytes[off + 192 + place + 6]);
  }

  /** The four weights of one turn, from the raw bytes. */
  lemma {:induction false} RawWeights(half: Half, rowBytes: seq<byte>, off: nat, h: nat, l: nat)
    requires off + 210 <= |rowBytes| && h < 2 && l < 32
    ensures
      var block, d := BlockQ6KAt(half, rowBytes, off), ScaleOf(half, rowBytes[off + 208], rowBytes[off + 209]);
      var place := off + 192 + 8 * h + l / 16;
      var low: int, high: int, qh: int :=
        rowBytes[off + 64 * h + l], rowBytes[off + 64 * h + 32 + l], rowBytes[off + 128 + 32 * h + l];
      && QuarterWeight(block, h, 0, l) == Scaled(d, Signed(rowBytes[place]), SixBits(low % 16, qh % 4))
      && QuarterWeight(block, h, 1, l) == Scaled(d, Signed(rowBytes[place + 2]), SixBits(high % 16, qh / 4 % 4))
      && QuarterWeight(block, h, 2, l) == Scaled(d, Signed(rowBytes[place + 4]), SixBits(low / 16, qh / 16 % 4))
      && QuarterWeight(block, h, 3, l) == Scaled(d, Signed(rowBytes[place + 6]), SixBits(high / 16, qh / 64 % 4))
  {
    hide QuarterBits, QuarterScale, SixBits, Signed, Scaled;
    RawBits(half, rowBytes, off, h, l);
    RawScales(half, rowBytes, off, h, l);
    assert BlockQ6KAt(half, rowBytes, off).d == ScaleOf(half, rowBytes[off + 208], rowBytes[off + 209]);
  }

  /** One turn of the innermost loop, on the raw bytes of the block at `off`. */
  method AddTurnQ6K(half: Half, rowBytes: seq<byte>, off: nat, h: nat, l: nat, x: seq<real>, xOffset: nat, start: real,
                    ghost w: seq<real>)
    returns (sum: real)
    requires off + 210 <= |rowBytes| && h < 2 && l < 32
    requires xOffset + 128 <= |x| && xOffset + 128 <= |w|
    requires
      var block := BlockQ6KAt(half, rowBytes, off);
      && w[xOffset + l] == QuarterWeight(block, h, 0, l) && w[xOffset + 32 + l] == QuarterWeight(block, h, 1, l)
      && w[xOffset + 64 + l] == QuarterWeight(block, h, 2, l) && w[xOffset + 96 + l] == QuarterWeight(block, h, 3, l)
    ensures sum == start + TurnSum(w, x, xOffset, l)
  {
    hide BlockQ6KAt, QuarterWeight, Scaled, SixBits, Signed, Times;
    RawWeights(half, rowBytes, off, h, l);
    var d := ScaleOf(half, rowBytes[off + 208], rowBytes[off + 209]);
    var qh: int := rowBytes[off + 128 + 32 * h + l];
    var low: int := rowBytes[off + 64 * h + l];
    var high: int := rowBytes[off + 64 * h + 32 + l];
    var place := off + 192 + 8 * h + l / 16;
    var q1 := SixBits(low % 16, qh % 4);
    var q2 := SixBits(high % 16, qh / 4 % 4);
    var q3 := SixBits(low / 16, qh / 16 % 4);
    var q4 := SixBits(high / 16, qh / 64 % 4);
    sum := AddProduct(start, d, Signed(rowBytes[place]), q1, x[xOffset + l], w[xOffset + l]);
    sum := AddProduct(sum, d, Signed(rowBytes[place + 2]), q2, x[xOffset + 32 + l], w[xOffset + 32 + l]);
    sum := AddProduct(sum, d, Signed(rowBytes[place + 4]), q3, x[xOffset + 64 + l], w[xOffset + 64 + l]);
    sum := AddProduct(sum, d, Signed(rowBytes[place + 6]), q4, x[xOffset + 96 + l], w[xOffset + 96 + l]);
  }

  /** The inner loop over one half. */
  method AddHalfQ6K(half: Half, rowBytes: seq<byte>, blocks: nat, b: nat, h: nat, x: seq<real>, xOffset: nat, start: real,
                    ghost w: seq<real>)
    returns (sum: real)
    requires RowBytes(Q6_K, blocks) <= |rowBytes| && b < blocks && h < 2 && RowWidth(Q6_K, blocks) <= |x|
    requires w == DecodedRow(Q6_K, half, rowBytes, blocks) && xOffset == 256 * b + 128 * h
    ensures sum == start + Dot(w, x, xOffset, xOffset + 128)
  {
    sum := start;
    QuarterDotsNone(w, x, xOffset);
    QuarterDotsAll(w, x, xOffset);
    hide WeightAt, DecodedRow, TurnSum, Dot, QuarterDots, Times;
    for l := 0 to 32
      invariant sum == start + QuarterDots(w, x, xOffset, l)
    {
      TurnPlaces(half, rowBytes, blocks, b, h, l);
      QuarterDotsNext(w, x, xOffset, l);
      hide QuarterWeight, BlockQ6KAt;
      sum := AddTurnQ6K(half, rowBytes, 210 * b, h, l, x, xOffset, sum, w);
    }
  }

  /** Both halves of one block. */
  method AddBlockQ6K(half: Half, rowBytes: seq<byte>, blocks: nat, b: nat, x: seq<real>, start: real, ghost w: seq<real>)
    returns (sum: real)
    requires RowBytes(Q6_K, blocks) <= |rowBytes| && b < blocks && RowWidth(Q6_K, blocks) <= |x|
    requires w == DecodedRow(Q6_K, half, rowBytes, blocks)
    ensures sum == start + Dot(w, x, 256 * b, 256 * b + 256)
  {
    var xOffset := 256 * b;
    DotSplit(w, x, xOffset, xOffset + 128, xOffset + 256);
    sum := AddHalfQ6K(half, rowBytes, blocks, b, 0, x, xOffset, start, w);
    sum := AddHalfQ6K(half, rowBytes, blocks, b, 1, x, xOffset + 128, sum, w);
  }

  /** Four products a turn, one from each quarter; the sum is that of the decoded row. */
  method RowDotQ6K(half: Half, rowBytes: seq<byte>, blocksPerRow: nat, x: seq<real>) returns (r: Result<real, QuantError>)
    requires RowWidth(Q6_K, blocksPerRow) <= |x|
    ensures r.Ok? <==> RowBytes(Q6_K, blocksPerRow) <= |rowBytes|
    ensures r.Ok? ==> r.value == RowDot(Q6_K, half, rowBytes, blocksPerRow, x)
  {
    RowDotNone(Q6_K, half, rowBytes, x);
    var sum := 0.0;
    var off := 0;
    hide RowDot, Dot, DecodedRow, WeightAt;
    for b := 0 to blocksPerRow
      invariant off == 210 * b <= |rowBytes|
      invariant sum == RowDot(Q6_K, half, rowBytes, b, x)
    {
      if off + 210 > |rowBytes| {
        return Err(Truncated);
      }
      RowDotNext(Q6_K, half, rowBytes, b, x);
      sum := AddBlockQ6K(half, rowBytes, b + 1, b, x, sum, DecodedRow(Q6_K, half, rowBytes, b + 1));
      off := off + 210;
    }
    return Ok(sum);
  }
}
