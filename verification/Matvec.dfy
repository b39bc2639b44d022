/**
 * Matrix-vector products over quantized rows: the fused kernels on any range of output rows, and
 * the reference that decodes each row first.
 */
module Matvec {
  import opened Prelude
  import opened Quant

  /** A slice of bytes: its length is a 64-bit number. */
  type Bytes = s: seq<byte> | |s| <= 0xFFFF_FFFF_FFFF_FFFF

  /** The explicit convention of the reference: `input` columns, `output` rows. */
  datatype MatrixShape = MatrixShape(input: u64, output: u64)

  // ---------------------------------------------------------------------------------------------
  // Rows of a matrix
  // ---------------------------------------------------------------------------------------------

  /** Where a row of `width` items starts: after `row` rows, at `width * row`. */
  function RowStart(width: nat, row: nat): nat {
    if row == 0 then 0 else RowStart(width, row - 1) + width
  }

  lemma {:induction false} RowStartIsProduct(width: nat, row: nat)
    ensures RowStart(width, row) == width * row
  {
    if row > 0 {
      RowStartIsProduct(width, row - 1);
    }
  }

  lemma {:induction false} NextRow(width: nat, row: nat)
    ensures RowStart(width, row + 1) == RowStart(width, row) + width
  {}

  lemma {:induction false} RowsGrow(width: nat, row: nat, rows: nat)
    requires row <= rows
    ensures RowStart(width, row) <= RowStart(width, rows)
    decreases rows - row
  {
    if row < rows {
      NextRow(width, row);
      RowsGrow(width, row + 1, rows);
    }
  }

  /** Row `row` of a row-major buffer. */
  function RowOf<T>(items: seq<T>, width: nat, row: nat): (slice: seq<T>)
    requires RowStart(width, row) + width <= |items|
    ensures |slice| == width
  {
    items[RowStart(width, row)..RowStart(width, row) + width]
  }

  lemma {:induction false} RowInside(width: nat, row: nat, rows: nat)
    requires row < rows
    ensures RowStart(width, row) + width <= RowStart(width, rows)
  {
    NextRow(width, row);
    RowsGrow(width, row + 1, rows);
  }

  /** A weight matrix of `rows` rows, each of `blocks` blocks, is all there. */
  predicate Holds(format: Format, bytes: seq<byte>, blocks: nat, rows: nat) {
    RowStart(RowBytes(format, blocks), rows) <= |bytes|
  }

  /** One output: the reference dot-product of one row with the input. */
  function Output(format: Format, half: Half, bytes: seq<byte>, blocks: nat, rows: nat, x: seq<real>, row: nat): real
    requires Holds(format, bytes, blocks, rows) && RowWidth(format, blocks) == |x| && row < rows
  {
    RowInside(RowBytes(format, blocks), row, rows);
    RowDot(format, half, RowOf(bytes, RowBytes(format, blocks), row), blocks, x)
  }

  /** The whole product. */
  function Product(format: Format, half: Half, bytes: seq<byte>, blocks: nat, rows: nat, x: seq<real>): (y: seq<real>)
    requires Holds(format, bytes, blocks, rows) && RowWidth(format, blocks) == |x|
    ensures |y| == rows
    ensures forall row :: 0 <= row < rows ==> y[row] == Output(format, half, bytes, blocks, rows, x, row)
  {
    seq(rows, row requires 0 <= row < rows => Output(format, half, bytes, blocks, rows, x, row))
  }

  // ---------------------------------------------------------------------------------------------
  // The fused kernels
  // ---------------------------------------------------------------------------------------------

  method FusedRowDot(format: Format, half: Half, rowBytes: seq<byte>, blocks: nat, x: seq<real>)
    returns (r: Result<real, QuantError>)
    requires RowBytes(format, blocks) <= |rowBytes| && RowWidth(format, blocks) <= |x|
    ensures r == Ok(RowDot(format, half, rowBytes, blocks, x))
  {
    match format
    case Q4_0 =>
      var sum := RowDotQ4_0(half, rowBytes, blocks, x);
      r := Ok(sum);
    case Q6_K =>
      r := RowDotQ6K(half, rowBytes, blocks, x);
  }

  /** A call is refused, panics at a slice out of bounds, or returns. */
  datatype RangeOutcome = Done | Refused(error: QuantError) | Panicked

  /** The shape, the range and the buffers agree: `wShape` is rows first, then columns. */
  predicate FitsRange(format: Format, wShape: seq<u64>, xLength: nat, yLength: nat, rowStart: u64, rowCount: Option<u64>) {
    && |wShape| == 2 && xLength == wShape[1] && rowStart <= wShape[0]
    && (var count := if rowCount.Some? then rowCount.value else wShape[0] - rowStart;
        rowStart + count <= wShape[0] && yLength == count)
    && wShape[1] % RowWidth(format, 1) == 0
  }

  /** The exact number of bytes of all rows. */
  function MatrixBytes(format: Format, wShape: seq<u64>): nat
    requires |wShape| == 2
  {
    RowStart(RowBytes(format, wShape[1] / RowWidth(format, 1)), wShape[0])
  }

  /** What a row-range product demands; the product of rows and row bytes is not checked and wraps. */
  predicate AcceptsRange(format: Format, bytes: seq<byte>, wShape: seq<u64>, xLength: nat, yLength: nat,
                         rowStart: u64, rowCount: Option<u64>) {
    FitsRange(format, wShape, xLength, yLength, rowStart, rowCount) && Wrapped(MatrixBytes(format, wShape)) <= |bytes|
  }

  /** Where the kernel looks for a row. */
  function RowOffset(rowBytes: nat, row: nat): u64 {
    Wrapped(RowStart(rowBytes, row))
  }

  predicate RowPresent(bytes: seq<byte>, rowBytes: nat, row: nat) {
    RowOffset(rowBytes, row) + rowBytes <= |bytes|
  }

  predicate RowsPresent(bytes: seq<byte>, rowBytes: nat, from_: nat, to: nat) {
    forall row :: from_ <= row < to ==> RowPresent(bytes, rowBytes, row)
  }

  /** The dot-product of the bytes the kernel finds for a row. */
  function Found(format: Format, half: Half, bytes: seq<byte>, blocks: nat, x: seq<real>, row: nat): real
    requires RowPresent(bytes, RowBytes(format, blocks), row) && RowWidth(format, blocks) == |x|
  {
    var at := RowOffset(RowBytes(format, blocks), row);
    RowDot(format, half, bytes[at..at + RowBytes(format, blocks)], blocks, x)
  }

  lemma {:induction false} WholeBlocks(format: Format, input: nat)
    requires input % RowWidth(format, 1) == 0
    ensures RowWidth(format, input / RowWidth(format, 1)) == input
  {}

  /** A row of no more than 2^64 - 1 columns has its byte count in 64 bits. */
  lemma {:induction false} RowBytesFit(format: Format, input: u64)
    ensures RowBytes(format, input / RowWidth(format, 1)) <= U64_MAX
  {}

  /**
   * Rows from `rowStart` on into a local slice: `y[0]` is row `rowStart`. Refused calls leave the
   * slice alone. Both formats have this kernel.
   */
  method MatvecRowRange(format: Format, half: Half, bytes: Bytes, wShape: seq<u64>, x: seq<real>, y: array<real>,
                        rowStart: u64, rowCount: Option<u64>)
    returns (r: RangeOutcome)
    modifies y
    ensures !r.Refused? <==> AcceptsRange(format, bytes, wShape, |x|, y.Length, rowStart, rowCount)
    ensures r.Refused? ==> y[..] == old(y[..])
    ensures !r.Refused? ==>
      && RowWidth(format, wShape[1] / RowWidth(format, 1)) == |x|
      && (r.Done? <==> RowsPresent(bytes, RowBytes(format, wShape[1] / RowWidth(format, 1)), rowStart, rowStart + y.Length))
      && (r.Done? ==> forall k :: 0 <= k < y.Length ==>
           y[k] == Found(format, half, bytes, wShape[1] / RowWidth(format, 1), x, rowStart + k))
    ensures !r.Refused? && MatrixBytes(format, wShape) <= U64_MAX ==>
      && r.Done? && Holds(format, bytes, wShape[1] / RowWidth(format, 1), wShape[0])
      && rowStart + y.Length <= wShape[0]
      && y[..] == Product(format, half, bytes, wShape[1] / RowWidth(format, 1), wShape[0], x)[rowStart..rowStart + y.Length]
  {
    if |wShape| != 2 {
      return Refused(WrongShape);
    }
    var outDim, inDim := wShape[0], wShape[1];
    if |x| != inDim {
      return Refused(WrongShape);
    }
    if rowStart > outDim {
      return Refused(WrongShape);
    }
    var count := if rowCount.Some? then rowCount.value else outDim - rowStart;
    if rowStart + count > U64_MAX {
      return Refused(WrongShape);
    }
    if rowStart + count > outDim || y.Length != count {
      return Refused(WrongShape);
    }
    if inDim % RowWidth(format, 1) != 0 {
      return Refused(NotDivisible);
    }
    var blocks := inDim / RowWidth(format, 1);
    WholeBlocks(format, inDim);
    RowBytesFit(format, inDim);
    var rowBytes := RowBytes(format, blocks);
    if |bytes| < RowOffset(rowBytes, outDim) {
      return Refused(Truncated);
    }
    hide RowDot, RowOffset, RowStart, Found, Output, RowPresent;
    var ok := FillFound(format, half, bytes, blocks, x, y, rowStart);
    AcceptedHolds(format, bytes, wShape, |x|, y.Length, rowStart, rowCount);
    if MatrixBytes(format, wShape) <= U64_MAX {
      RangeIsProduct(format, half, bytes, blocks, outDim, x, y[..], rowStart);
    }
    r := if ok then Done else Panicked;
  }

  /** The rows one by one, up to the first whose slice is out of bounds. */
  method FillFound(format: Format, half: Half, bytes: Bytes, blocks: nat, x: seq<real>, y: array<real>, rowStart: u64)
    returns (ok: bool)
    requires RowWidth(format, blocks) == |x| && RowBytes(format, blocks) <= U64_MAX
    modifies y
    ensures ok <==> RowsPresent(bytes, RowBytes(format, blocks), rowStart, rowStart + y.Length)
    ensures ok ==> forall k :: 0 <= k < y.Length ==> y[k] == Found(format, half, bytes, blocks, x, rowStart + k)
  {
    hide RowDot, RowOffset, RowStart, RowBytes, RowWidth;
    var rowBytes := RowBytes(format, blocks);
    for i := rowStart to rowStart + y.Length
      invariant RowsPresent(bytes, rowBytes, rowStart, i)
      invariant forall k :: 0 <= k < i - rowStart ==> y[k] == Found(format, half, bytes, blocks, x, rowStart + k)
    {
      var at := RowOffset(rowBytes, i);
      var end := Wrapped(at + rowBytes);
      SliceBounds(bytes, rowBytes, i);
      if at > end || end > |bytes| {
        assert !RowPresent(bytes, rowBytes, i);
        return false;
      }
      var dot := FusedRowDot(format, half, bytes[at..end], blocks, x);
      y[i - rowStart] := dot.value;
    }
    ok := true;
  }

  /** The slice of a row is in bounds exactly when the row is there, also where its end wraps. */
  lemma {:induction false} SliceBounds(bytes: Bytes, rowBytes: nat, row: nat)
    requires rowBytes <= U64_MAX
    ensures
      var at, end := RowOffset(rowBytes, row), Wrapped(RowOffset(rowBytes, row) + rowBytes);
      (at <= end <= |bytes| <==> RowPresent(bytes, rowBytes, row)) && (at <= end <= |bytes| ==> end == at + rowBytes)
  {
    hide RowStart;
  }

  // ---------------------------------------------------------------------------------------------
  // When the rows found are the rows
  // ---------------------------------------------------------------------------------------------

  /**
   * An accepted matrix is all there exactly when the exact product of rows and row bytes fits 64
   * bits; otherwise rows are missing, and those found stand elsewhere.
   */
  lemma {:induction false} AcceptedHolds(format: Format, bytes: Bytes, wShape: seq<u64>, xLength: nat, yLength: nat,
                                         rowStart: u64, rowCount: Option<u64>)
    requires AcceptsRange(format, bytes, wShape, xLength, yLength, rowStart, rowCount)
    ensures Holds(format, bytes, wShape[1] / RowWidth(format, 1), wShape[0]) <==> MatrixBytes(format, wShape) <= U64_MAX
  {}

  /** Then every row is found at its own place. */
  lemma {:induction false} FoundIsOutput(format: Format, half: Half, bytes: Bytes, blocks: nat, rows: nat, x: seq<real>, row: nat)
    requires Holds(format, bytes, blocks, rows) && RowWidth(format, blocks) == |x| && row < rows
    ensures RowPresent(bytes, RowBytes(format, blocks), row)
    ensures Found(format, half, bytes, blocks, x, row) == Output(format, half, bytes, blocks, rows, x, row)
  {
    hide RowDot;
    RowInside(RowBytes(format, blocks), row, rows);
  }

  /** And a range of rows found is that range of the product. */
  lemma {:induction false} RangeIsProduct(format: Format, half: Half, bytes: Bytes, blocks: nat, rows: nat, x: seq<real>,
                                          y: seq<real>, rowStart: nat)
    requires Holds(format, bytes, blocks, rows) && RowWidth(format, blocks) == |x| && rowStart + |y| <= rows
    ensures RowsPresent(bytes, RowBytes(format, blocks), rowStart, rowStart + |y|)
    ensures (forall k :: 0 <= k < |y| ==> y[k] == Found(format, half, bytes, blocks, x, rowStart + k)) ==>
      y == Product(format, half, bytes, blocks, rows, x)[rowStart..rowStart + |y|]
  {
    hide Found, Output, RowPresent, Holds;
    forall row | rowStart <= row < rowStart + |y|
      ensures RowPresent(bytes, RowBytes(format, blocks), row)
      ensures Found(format, half, bytes, blocks, x, row) == Output(format, half, bytes, blocks, rows, x, row)
    {
      FoundIsOutput(format, half, bytes, blocks, rows, x, row);
    }
  }

  /**
   * Where the product wraps to nothing the kernel accepts a matrix of one row as one of 2^63, and
   * gives that row's dot-product for row 2^62.
   */
  lemma {:induction false} WrappedMatrixIsAccepted(half: Half, bytes: Bytes, x: seq<real>)
    requires |bytes| == 36 && |x| == 64
    ensures
      var wShape: seq<u64> := [0x8000_0000_0000_0000, 64];
      var row: u64 := 0x4000_0000_0000_0000;
      && AcceptsRange(Q4_0, bytes, wShape, 64, 1, row, Some(1)) && AcceptsRange(Q4_0, bytes, wShape, 64, 1, 0, Some(1))
      && !Holds(Q4_0, bytes, 2, wShape[0])
      && RowPresent(bytes, RowBytes(Q4_0, 2), row) && Found(Q4_0, half, bytes, 2, x, row) == RowDot(Q4_0, half, bytes, 2, x)
  {
    hide RowDot;
    RowStartIsProduct(36, 0x8000_0000_0000_0000);
    RowStartIsProduct(36, 0x4000_0000_0000_0000);
    assert bytes[0..36] == bytes;
  }

  // ---------------------------------------------------------------------------------------------
  // Tiling
  // ---------------------------------------------------------------------------------------------

  function Sum(counts: seq<nat>, n: nat): nat
    requires n <= |counts|
  {
    if n == 0 then 0 else Sum(counts, n - 1) + counts[n - 1]
  }

  lemma {:induction false} SumGrows(counts: seq<nat>, m: nat, n: nat)
    requires m <= n <= |counts|
    ensures Sum(counts, m) <= Sum(counts, n)
    decreases n
  {
    if m < n {
      SumGrows(counts, m, n - 1);
    }
  }

  /** However the output rows are cut into consecutive ranges, the local slices join to the whole product. */
  method TiledMatvec(format: Format, half: Half, bytes: Bytes, wShape: seq<u64>, x: seq<real>, counts: seq<nat>)
    returns (y: seq<real>)
    requires |wShape| == 2 && |x| == wShape[1] && wShape[1] % RowWidth(format, 1) == 0
    requires Holds(format, bytes, wShape[1] / RowWidth(format, 1), wShape[0])
    requires Sum(counts, |counts|) == wShape[0]
    ensures RowWidth(format, wShape[1] / RowWidth(format, 1)) == |x|
    ensures y == Product(format, half, bytes, wShape[1] / RowWidth(format, 1), wShape[0], x)
  {
    hide Found, Output, RowPresent, RowDot;
    WholeBlocks(format, wShape[1]);
    ghost var product := Product(format, half, bytes, wShape[1] / RowWidth(format, 1), wShape[0], x);
    y := [];
    for n := 0 to |counts|
      invariant |y| == Sum(counts, n) <= |product| && y == product[..|y|]
    {
      SumGrows(counts, n + 1, |counts|);
      var local := new real[counts[n]];
      var count: u64 := counts[n];
      var r := MatvecRowRange(format, half, bytes, wShape, x, local, |y|, Some(count));
      assert product[..|y| + counts[n]] == product[..|y|] + product[|y|..|y| + counts[n]];
      y := y + local[..];
    }
    assert product[..|product|] == product;
  }

  // ---------------------------------------------------------------------------------------------
  // The references
  // ---------------------------------------------------------------------------------------------

  method SumOfProducts(row: seq<real>, x: seq<real>, n: nat) returns (sum: real)
    requires n <= |row| && n <= |x|
    ensures sum == Dot(row, x, 0, n)
  {
    sum := 0.0;
    for i := 0 to n
      invariant sum == Dot(row, x, 0, i)
    {
      sum := sum + row[i] * x[i];
    }
  }

  /** Decodes each row, then multiplies and adds in order; `shape` is columns first. */
  method QuantizedMatvecReference(format: Format, half: Half, raw: seq<byte>, shape: MatrixShape, x: seq<real>, y: array<real>)
    returns (r: Result<(), QuantError>)
    modifies y
    ensures r.Ok? <==>
      && |x| == shape.input && y.Length == shape.output && shape.input % RowWidth(format, 1) == 0
      && RowStart(RowBytes(format, shape.input / RowWidth(format, 1)), shape.output) <= U64_MAX
      && RowBytes(format, shape.input / RowWidth(format, 1)) <= U64_MAX
      && Holds(format, raw, shape.input / RowWidth(format, 1), shape.output)
    ensures r.Ok? ==>
      && RowWidth(format, shape.input / RowWidth(format, 1)) == |x|
      && y[..] == Product(format, half, raw, shape.input / RowWidth(format, 1), shape.output, x)
    ensures r.Err? ==> y[..] == old(y[..])
  {
    if |x| != shape.input || y.Length != shape.output {
      return Err(WrongShape);
    }
    if shape.input % RowWidth(format, 1) != 0 {
      return Err(NotDivisible);
    }
    var blocks := shape.input / RowWidth(format, 1);
    WholeBlocks(format, shape.input);
    var rowBytes := RowBytes(format, blocks);
    if rowBytes > U64_MAX || RowStart(rowBytes, shape.output) > U64_MAX {
      return Err(WrongShape);
    }
    if |raw| < RowStart(rowBytes, shape.output) {
      return Err(Truncated);
    }
    DecodeAndFill(format, half, raw, blocks, shape.output, x, y);
    r := Ok(());
  }

  method DecodeAndFill(format: Format, half: Half, raw: seq<byte>, blocks: nat, rows: nat, x: seq<real>, y: array<real>)
    requires Holds(format, raw, blocks, rows) && RowWidth(format, blocks) == |x| && y.Length == rows
    modifies y
    ensures y[..] == Product(format, half, raw, blocks, rows, x)
  {
    hide RowDot, RowStart, DecodedRow, RowBytes, RowWidth, Dot;
    ghost var product := Product(format, half, raw, blocks, rows, x);
    var rowBytes := RowBytes(format, blocks);
    var decoded := new real[|x|](_ => 0.0);
    for row := 0 to rows
      invariant forall k :: 0 <= k < row ==> y[k] == product[k]
    {
      RowInside(rowBytes, row, rows);
      y[row] := DecodeAndDot(format, half, RowOf(raw, rowBytes, row), blocks, x, decoded);
    }
  }

  method DecodeAndDot(format: Format, half: Half, rowBytes: seq<byte>, blocks: nat, x: seq<real>, decoded: array<real>)
    returns (sum: real)
    requires RowBytes(format, blocks) <= |rowBytes| && RowWidth(format, blocks) == |x| == decoded.Length
    modifies decoded
    ensures sum == RowDot(format, half, rowBytes, blocks, x)
  {
    BlocksOfWidth(format, blocks);
    var r := DequantizeRow(format, half, rowBytes, |x|, decoded);
    assert decoded[..|x|] == decoded[..];
    sum := SumOfProducts(decoded[..], x, |x|);
  }

  lemma {:induction false} BlocksOfWidth(format: Format, blocks: nat)
    ensures RowWidth(format, blocks) % RowWidth(format, 1) == 0
    ensures RowWidth(format, blocks) / RowWidth(format, 1) == blocks
  {}

  /** Whatever the tiling and whichever the kernel, fused or decoding, the outputs are the same. */
  method FusedEqualsReference(format: Format, half: Half, raw: Bytes, shape: MatrixShape, x: seq<real>, counts: seq<nat>)
    returns (fused: seq<real>, reference: seq<real>)
    requires |x| == shape.input && shape.input % RowWidth(format, 1) == 0
    requires Holds(format, raw, shape.input / RowWidth(format, 1), shape.output)
    requires Sum(counts, |counts|) == shape.output
    ensures fused == reference
  {
    RowBytesFit(format, shape.input);
    fused := TiledMatvec(format, half, raw, [shape.output, shape.input], x, counts);
    var y := new real[shape.output];
    var r := QuantizedMatvecReference(format, half, raw, shape, x, y);
    reference := y[..];
  }

  // ---------------------------------------------------------------------------------------------
  // The F32 reference
  // ---------------------------------------------------------------------------------------------

  /** One output of a plain row-major matrix. */
  function PlainOutput(weights: seq<real>, shape: MatrixShape, x: seq<real>, row: nat): real
    requires |weights| == RowStart(shape.input, shape.output) && |x| == shape.input && row < shape.output
  {
    RowInside(shape.input, row, shape.output);
    Dot(RowOf(weights, shape.input, row), x, 0, shape.input)
  }

  function PlainProduct(weights: seq<real>, shape: MatrixShape, x: seq<real>): (y: seq<real>)
    requires |weights| == RowStart(shape.input, shape.output) && |x| == shape.input
    ensures |y| == shape.output
    ensures forall row :: 0 <= row < shape.output ==> y[row] == PlainOutput(weights, shape, x, row)
  {
    seq(shape.output, row requires 0 <= row < shape.output => PlainOutput(weights, shape, x, row))
  }

  method MatvecF32Reference(weights: seq<real>, shape: MatrixShape, x: seq<real>, y: array<real>)
    returns (r: Result<(), QuantError>)
    modifies y
    ensures r.Ok? <==>
      && RowStart(shape.input, shape.output) <= U64_MAX && |weights| == RowStart(shape.input, shape.output)
      && |x| == shape.input && y.Length == shape.output
    ensures r.Ok? ==> y[..] == PlainProduct(weights, shape, x)
    ensures r.Err? ==> y[..] == old(y[..])
  {
    var expected := RowStart(shape.input, shape.output);
    if expected > U64_MAX {
      return Err(WrongShape);
    }
    if |weights| != expected || |x| != shape.input || y.Length != shape.output {
      return Err(WrongShape);
    }
    FillPlain(weights, shape, x, y, 0);
    r := Ok(());
  }

  /** Rows from `rowStart` on, `y[0]` being row `rowStart`. */
  method MatvecF32RowRange(weights: seq<real>, shape: MatrixShape, x: seq<real>, y: array<real>, rowStart: u64, rowCount: u64)
    returns (r: Result<(), QuantError>)
    modifies y
    ensures r.Ok? <==>
      && rowStart + rowCount <= shape.output && y.Length == rowCount && |x| == shape.input
      && RowStart(shape.input, shape.output) <= U64_MAX && |weights| == RowStart(shape.input, shape.output)
    ensures r.Ok? ==> y[..] == PlainProduct(weights, shape, x)[rowStart..rowStart + rowCount]
    ensures r.Err? ==> y[..] == old(y[..])
  {
    if rowStart + rowCount > U64_MAX || rowStart + rowCount > shape.output {
      return Err(WrongShape);
    }
    if y.Length != rowCount {
      return Err(WrongShape);
    }
    if |x| != shape.input {
      return Err(WrongShape);
    }
    var expected := RowStart(shape.input, shape.output);
    if expected > U64_MAX {
      return Err(WrongShape);
    }
    if |weights| != expected {
      return Err(WrongShape);
    }
    FillPlain(weights, shape, x, y, rowStart);
    r := Ok(());
  }

  method FillPlain(weights: seq<real>, shape: MatrixShape, x: seq<real>, y: array<real>, rowStart: nat)
    requires |weights| == RowStart(shape.input, shape.output) && |x| == shape.input
    requires rowStart + y.Length <= shape.output
    modifies y
    ensures y[..] == PlainProduct(weights, shape, x)[rowStart..rowStart + y.Length]
  {
    ghost var product := PlainProduct(weights, shape, x);
    hide RowStart, Dot;
    for i := 0 to y.Length
      invariant forall k :: 0 <= k < i ==> y[k] == product[rowStart + k]
    {
      RowInside(shape.input, rowStart + i, shape.output);
      y[i] := SumOfProducts(RowOf(weights, shape.input, rowStart + i), x, shape.input);
    }
  }

  /** `weights` are the decoded rows of the quantized matrix, one after the other. */
  ghost predicate IsDecoding(format: Format, half: Half, raw: seq<byte>, blocks: nat, rows: nat, weights: seq<real>)
    requires Holds(format, raw, blocks, rows)
  {
    && |weights| == RowStart(RowWidth(format, blocks), rows)
    && forall row :: 0 <= row < rows ==> IsDecodedRow(format, half, raw, blocks, rows, weights, row)
  }

  ghost predicate IsDecodedRow(format: Format, half: Half, raw: seq<byte>, blocks: nat, rows: nat, weights: seq<real>, row: nat)
    requires Holds(format, raw, blocks, rows) && |weights| == RowStart(RowWidth(format, blocks), rows) && row < rows
  {
    RowInside(RowBytes(format, blocks), row, rows);
    RowInside(RowWidth(format, blocks), row, rows);
    RowOf(weights, RowWidth(format, blocks), row)
      == DecodedRow(format, half, RowOf(raw, RowBytes(format, blocks), row), blocks)
  }

  /** The quantized product is the plain product of the decoded matrix, despite the swapped shape order. */
  lemma {:induction false} QuantizedIsPlainOfDecoded(format: Format, half: Half, raw: seq<byte>, blocks: nat,
                                                     shape: MatrixShape, weights: seq<real>, x: seq<real>)
    requires RowWidth(format, blocks) == shape.input == |x| && Holds(format, raw, blocks, shape.output)
    requires IsDecoding(format, half, raw, blocks, shape.output, weights)
    ensures Product(format, half, raw, blocks, shape.output, x) == PlainProduct(weights, shape, x)
  {
    hide Dot, DecodedRow;
    forall row | 0 <= row < shape.output
      ensures Product(format, half, raw, blocks, shape.output, x)[row] == PlainProduct(weights, shape, x)[row]
    {
      RowInside(shape.input, row, shape.output);
      RowInside(RowBytes(format, blocks), row, shape.output);
      assert IsDecodedRow(format, half, raw, blocks, shape.output, weights, row);
    }
  }
}
