// Fused matrix-vector products over Q4_K weights: the dequantised row is never stored.
module FusedGemv {
  import opened Common
  import opened MixedRadix
  import opened Q4K

  // ----- dequantise, then dot -----

  /** A sum of n products from the left, continued from an accumulator. */
  function Fold<F>(ops: Ops<F>, ws: seq<F>, xs: seq<F>, acc: F, n: nat): F
    requires n <= |ws| && n <= |xs|
    decreases n, ws
  {
    if n == 0 then acc else ops.add(Fold(ops, ws, xs, acc, n - 1), ops.mul(ws[n - 1], xs[n - 1]))
  }

  /** The dot product of two vectors, summed from the left. */
  function Dot<F>(ops: Ops<F>, ws: seq<F>, xs: seq<F>): F
    requires |ws| == |xs|
  {
    Fold(ops, ws, xs, ops.zero, |ws|)
  }

  /** The 256 weights of the block at `base`. */
  function BlockWeights<F>(ops: Ops<F>, raw: seq<Byte>, base: nat): (r: seq<F>)
    requires base + 144 <= |raw|
    ensures |r| == 256
  {
    seq(256, e requires 0 <= e < 256 => Weight(ops, raw, base, e))
  }

  /** A vector cut into blocks of 256. */
  function Cut<T>(x: seq<T>, blocks: nat): (r: seq<seq<T>>)
    requires |x| == blocks * 256
    ensures |r| == blocks && forall b :: 0 <= b < blocks ==> |r[b]| == 256
  {
    seq(blocks, b requires 0 <= b < blocks => x[b * 256..b * 256 + 256])
  }

  /** Bytes for this many rows of blocks. */
  predicate Holds(raw: seq<Byte>, rows: nat, blocks: nat)
  {
    Radix(rows, blocks, 0) * 144 <= |raw|
  }

  lemma BlockFits(raw: seq<Byte>, rows: nat, blocks: nat, row: nat, blk: nat)
    requires Holds(raw, rows, blocks) && row < rows && blk < blocks
    ensures Radix(row, blocks, blk) * 144 + 144 <= |raw|
  {
    RadixBelow(row, blocks, blk, rows);
  }

  /** The matrix, dequantised: every row's blocks' weights. */
  function Matrix<F>(ops: Ops<F>, raw: seq<Byte>, rows: nat, blocks: nat): (m: seq<seq<seq<F>>>)
    requires Holds(raw, rows, blocks)
    ensures |m| == rows && forall r :: 0 <= r < rows ==> |m[r]| == blocks && forall b :: 0 <= b < blocks ==>
        |m[r][b]| == 256
  {
    seq(rows, r requires 0 <= r < rows => MatrixRow(ops, raw, rows, blocks, r))
  }

  function MatrixRow<F>(ops: Ops<F>, raw: seq<Byte>, rows: nat, blocks: nat, r: nat): (row: seq<seq<F>>)
    requires Holds(raw, rows, blocks) && r < rows
    ensures |row| == blocks && forall b :: 0 <= b < blocks ==> |row[b]| == 256
  {
    seq(blocks, b requires 0 <= b < blocks =>
      BlockFits(raw, rows, blocks, r, b);
      BlockWeights(ops, raw, Radix(r, blocks, b) * 144))
  }

  /** A row's weights are those that dequantising the whole matrix gives, n_cols at a time. */
  lemma RowIsDequantised<F>(ops: Ops<F>, raw: seq<Byte>, rows: nat, blocks: nat, row: nat, blk: nat, e: nat, b: nat)
    requires Holds(raw, rows, blocks) && row < rows && blk < blocks && e < 256 && b == Radix(row, blocks, blk)
    ensures HasWeight(ops, raw, b * 256 + e, MatrixRow(ops, raw, rows, blocks, row)[blk][e])
  {
    BlockFits(raw, rows, blocks, row, blk);
    WeightInBlock(ops, raw, b, e, BlockWeights(ops, raw, b * 144)[e]);
  }

  /** That index, in terms of columns. */
  lemma RowOffset(row: nat, blocks: nat, blk: nat, e: nat)
    ensures Radix(row, blocks, blk) * 256 + e == Radix(row, blocks * 256, 0) + blk * 256 + e
  {
    RadixIs(row, blocks, blk);
    RadixIs(row, blocks * 256, 0);
    assert row * blocks * 256 == row * (blocks * 256);
  }

  /** Blocks one after the other. */
  function Flat<F>(blocks: seq<seq<F>>): seq<F>
  {
    if blocks == [] then [] else Flat(blocks[..|blocks| - 1]) + blocks[|blocks| - 1]
  }

  /** A row's first n blocks, folded one after the other. */
  function RowSum<F>(ops: Ops<F>, row: seq<seq<F>>, x: seq<seq<F>>, n: nat): F
    requires n <= |row| == |x| && forall b :: 0 <= b < |row| ==> |row[b]| == |x[b]|
  {
    if n == 0 then ops.zero else Fold(ops, row[n - 1], x[n - 1], RowSum(ops, row, x, n - 1), |row[n - 1]|)
  }

  lemma {:induction false} FoldJoins<F>(ops: Ops<F>, a: seq<F>, b: seq<F>, xa: seq<F>, xb: seq<F>, acc: F, n: nat)
    requires |a| == |xa| && |b| == |xb| && n <= |b|
    ensures Fold(ops, a + b, xa + xb, acc, |a| + n) == Fold(ops, b, xb, Fold(ops, a, xa, acc, |a|), n)
  {
    if n > 0 {
      FoldJoins(ops, a, b, xa, xb, acc, n - 1);
    } else {
      FoldPrefix(ops, a, b, xa, xb, acc, |a|);
    }
  }

  lemma {:induction false} FoldPrefix<F>(ops: Ops<F>, a: seq<F>, b: seq<F>, xa: seq<F>, xb: seq<F>, acc: F, n: nat)
    requires |a| == |xa| && n <= |a|
    ensures n <= |xa + xb| && Fold(ops, a + b, xa + xb, acc, n) == Fold(ops, a, xa, acc, n)
  {
    if n > 0 {
      FoldPrefix(ops, a, b, xa, xb, acc, n - 1);
    }
  }

  /** Block by block, that is the whole row's dot product. */
  lemma {:induction false} RowSumIsDot<F>(ops: Ops<F>, row: seq<seq<F>>, x: seq<seq<F>>)
    requires |row| == |x| && forall b :: 0 <= b < |row| ==> |row[b]| == |x[b]|
    ensures |Flat(row)| == |Flat(x)| && RowSum(ops, row, x, |row|) == Dot(ops, Flat(row), Flat(x))
    decreases |row|
  {
    if row != [] {
      var n := |row| - 1;
      RowSumIsDot(ops, row[..n], x[..n]);
      RowSumPrefix(ops, row, x, n, n);
      FoldJoins(ops, Flat(row[..n]), row[n], Flat(x[..n]), x[n], ops.zero, |row[n]|);
    }
  }

  lemma {:induction false} RowSumPrefix<F>(ops: Ops<F>, row: seq<seq<F>>, x: seq<seq<F>>, m: nat, n: nat)
    requires n <= m <= |row| == |x| && forall b :: 0 <= b < |row| ==> |row[b]| == |x[b]|
    ensures RowSum(ops, row[..m], x[..m], n) == RowSum(ops, row, x, n)
  {
    if n > 0 {
      RowSumPrefix(ops, row, x, m, n - 1);
    }
  }

  /** Cutting a vector and joining the blocks gives it back. */
  lemma {:induction false} FlatCut<T>(x: seq<T>, blocks: nat)
    requires |x| == blocks * 256
    ensures Flat(Cut(x, blocks)) == x
  {
    if blocks > 0 {
      var shorter := x[..(blocks - 1) * 256];
      FlatCut(shorter, blocks - 1);
      var c := Cut(x, blocks);
      forall b | 0 <= b < blocks - 1
        ensures c[b] == Cut(shorter, blocks - 1)[b]
      {
        assert shorter[b * 256..b * 256 + 256] == x[b * 256..b * 256 + 256];
      }
      assert c[..blocks - 1] == Cut(shorter, blocks - 1);
      assert c[blocks - 1] == x[(blocks - 1) * 256..];
    }
  }

  // ----- the loops all kernels share -----

  /** One weight, from its nibble and its sub-block's scale and minimum. */
  method NextWeight<F>(ops: Ops<F>, raw: seq<Byte>, base: nat, sb: nat, i: nat, scale: F, min: F,
                       ghost ws: seq<F>) returns (w: F)
    requires base + 144 <= |raw| && sb < 8 && i < 32
    requires ws == BlockWeights(ops, raw, base) && IsScaleAndMin(ops, raw, base, sb, scale, min)
    ensures w == ws[sb * 32 + i]
  {
    var q := raw[base + 16 + sb / 2 * 32 + i];
    var nib := if sb % 2 == 0 then q % 16 else q / 16;
    SubBlockWeight(ops, raw, base, sb, i, scale, min, nib);
    w := ops.sub(ops.mul(scale, ops.ofNat(nib)), min);
  }

  /** A sub-block's 32 terms. */
  method FoldSubBlock<F>(ops: Ops<F>, raw: seq<Byte>, base: nat, sb: nat, scale: F, min: F, ghost ws: seq<F>,
                         x: seq<F>, ghost start: F, acc: F) returns (r: F)
    requires base + 144 <= |raw| && sb < 8 && |x| == |ws| == 256
    requires ws == BlockWeights(ops, raw, base) && IsScaleAndMin(ops, raw, base, sb, scale, min)
    requires acc == Fold(ops, ws, x, start, sb * 32)
    ensures r == Fold(ops, ws, x, start, sb * 32 + 32)
  {
    r := acc;
    for i := 0 to 32
      invariant r == Fold(ops, ws, x, start, sb * 32 + i)
    {
      var w := NextWeight(ops, raw, base, sb, i, scale, min, ws);
      r := ops.add(r, ops.mul(w, x[sb * 32 + i]));
    }
  }

  /** Two sub-blocks that share 32 bytes: low nibbles, then high ones. */
  method FoldPair<F>(ops: Ops<F>, raw: seq<Byte>, base: nat, pair: nat, d: F, dmin: F, scales: seq<Byte>,
                     mins: seq<Byte>,
                     ghost ws: seq<F>, x: seq<F>, ghost start: F, acc: F) returns (r: F)
    requires base + 144 <= |raw| && pair < 4 && |x| == |ws| == 256 && ws == BlockWeights(ops, raw, base)
    requires d == ops.half(raw[base], raw[base + 1]) && dmin == ops.half(raw[base + 2], raw[base + 3])
    requires |scales| == |mins| == 8
    requires forall j :: 0 <= j < 8 ==>
        scales[j] == ScaleOf(raw[base + 4..base + 16], j) && mins[j] == MinOf(raw[base + 4..base + 16], j)
    requires acc == Fold(ops, ws, x, start, pair * 64)
    ensures r == Fold(ops, ws, x, start, pair * 64 + 64)
  {
    var sb := pair * 2;
    r := FoldSubBlock(ops, raw, base, sb, ops.mul(d, ops.ofNat(scales[sb] % 64)),
                      ops.mul(dmin, ops.ofNat(mins[sb] % 64)), ws, x, start, acc);
    r := FoldSubBlock(ops, raw, base, sb + 1, ops.mul(d, ops.ofNat(scales[sb + 1] % 64)),
                      ops.mul(dmin, ops.ofNat(mins[sb + 1] % 64)), ws, x, start, r);
  }

  /** A block's 256 terms. */
  method FoldBlock<F>(ops: Ops<F>, raw: seq<Byte>, base: nat, x: seq<F>, acc: F) returns (r: F)
    requires base + 144 <= |raw| && |x| == 256
    ensures r == Fold(ops, BlockWeights(ops, raw, base), x, acc, 256)
  {
    ghost var ws := BlockWeights(ops, raw, base);
    var d, dmin := ops.half(raw[base], raw[base + 1]), ops.half(raw[base + 2], raw[base + 3]);
    var scales, mins := Unpack(raw[base + 4..base + 16]);
    r := acc;
    for pair := 0 to 4
      invariant r == Fold(ops, ws, x, acc, pair * 64)
    {
      r := FoldPair(ops, raw, base, pair, d, dmin, scales, mins, ws, x, acc, r);
    }
  }

  // ----- row-outer and block-outer -----

  /** A matrix of Q4_K rows with its dequantised form, and a vector with its blocks. */
  ghost predicate Fits<F>(ops: Ops<F>, raw: seq<Byte>, rows: nat, blocks: nat, x: seq<F>, m: seq<seq<seq<F>>>,
                          xs: seq<seq<F>>)
  {
    Holds(raw, rows, blocks) && |x| == blocks * 256 && m == Matrix(ops, raw, rows, blocks) && xs == Cut(x, blocks)
  }

  /** The same shapes, and no more: what the loops need to know. */
  ghost predicate Shaped<F>(m: seq<seq<seq<F>>>, xs: seq<seq<F>>, rows: nat, blocks: nat)
  {
    && |m| == rows && |xs| == blocks
    && (forall b :: 0 <= b < blocks ==> |xs[b]| == 256)
    && forall r :: 0 <= r < rows ==> RowShaped(m[r], blocks)
  }

  ghost predicate RowShaped<F>(row: seq<seq<F>>, blocks: nat)
  {
    |row| == blocks && forall b :: 0 <= b < blocks ==> |row[b]| == 256
  }

  lemma FitsShaped<F>(ops: Ops<F>, raw: seq<Byte>, rows: nat, blocks: nat, x: seq<F>, m: seq<seq<seq<F>>>,
                      xs: seq<seq<F>>)
    requires Fits(ops, raw, rows, blocks, x, m, xs)
    ensures Shaped(m, xs, rows, blocks)
  {
  }

  /** The loops over one block of one row. */
  method AddBlock<F>(ops: Ops<F>, raw: seq<Byte>, ghost rows: nat, blocks: nat, row: nat, x: seq<F>, blk: nat,
                     ghost m: seq<seq<seq<F>>>, ghost xs: seq<seq<F>>, acc: F) returns (r: F)
    requires Fits(ops, raw, rows, blocks, x, m, xs) && row < rows && blk < blocks
    ensures row < |m| && blk < |m[row]| && blk < |xs| && |m[row][blk]| == |xs[blk]|
    ensures r == Fold(ops, m[row][blk], xs[blk], acc, |m[row][blk]|)
  {
    BlockFits(raw, rows, blocks, row, blk);
    r := FoldBlock(ops, raw, Radix(row, blocks, blk) * 144, x[blk * 256..blk * 256 + 256], acc);
  }

  /** A row, block by block. */
  method SumRow<F>(ops: Ops<F>, raw: seq<Byte>, ghost rows: nat, blocks: nat, row: nat, x: seq<F>,
                   ghost m: seq<seq<seq<F>>>, ghost xs: seq<seq<F>>) returns (acc: F)
    requires Fits(ops, raw, rows, blocks, x, m, xs) && row < rows && Shaped(m, xs, rows, blocks)
    ensures acc == RowSum(ops, m[row], xs, blocks)
  {
    acc := ops.zero;
    for blk := 0 to blocks
      invariant acc == RowSum(ops, m[row], xs, blk)
    {
      acc := AddBlock(ops, raw, rows, blocks, row, x, blk, m, xs, acc);
    }
  }

  /** Every output is its row's sum of the first blk blocks. */
  ghost predicate RowsAt<F>(ops: Ops<F>, out: seq<F>, m: seq<seq<seq<F>>>, xs: seq<seq<F>>, blocks: nat, blk: nat)
    requires Shaped(m, xs, |out|, blocks) && blk <= blocks
  {
    forall r :: 0 <= r < |out| ==> out[r] == RowSum(ops, m[r], xs, blk)
  }

  /** Every output is its dequantised row's dot product with x. */
  ghost predicate IsProduct<F>(ops: Ops<F>, raw: seq<Byte>, out: seq<F>, x: seq<F>, blocks: nat)
    requires Holds(raw, |out|, blocks)
  {
    forall r :: 0 <= r < |out| ==>
      var row := Flat(MatrixRow(ops, raw, |out|, blocks, r));
      |row| == |x| && out[r] == Dot(ops, row, x)
  }

  lemma RowsAreProduct<F>(ops: Ops<F>, raw: seq<Byte>, out: seq<F>, x: seq<F>, blocks: nat, m: seq<seq<seq<F>>>,
                          xs: seq<seq<F>>)
    requires Fits(ops, raw, |out|, blocks, x, m, xs) && Shaped(m, xs, |out|, blocks) &&
        RowsAt(ops, out, m, xs, blocks, blocks)
    ensures IsProduct(ops, raw, out, x, blocks)
  {
    FlatCut(x, blocks);
    forall r | 0 <= r < |out|
      ensures
        var row := Flat(MatrixRow(ops, raw, |out|, blocks, r));
        |row| == |x| && out[r] == Dot(ops, row, x)
    {
      assert m[r] == MatrixRow(ops, raw, |out|, blocks, r) && RowShaped(m[r], blocks);
      RowSumIsDot(ops, m[r], xs);
    }
  }

  /** What dequantising the whole matrix writes. */
  ghost predicate IsDequantised<F>(ops: Ops<F>, raw: seq<Byte>, dst: seq<F>)
  {
    forall g :: 0 <= g < |dst| ==> HasWeight(ops, raw, g, dst[g])
  }

  /** A block of a row, in the dequantised matrix. */
  lemma BlockOfDequantised<F>(ops: Ops<F>, raw: seq<Byte>, dst: seq<F>, rows: nat, blocks: nat, r: nat, b: nat,
                              from: nat)
    requires Holds(raw, rows, blocks) && r < rows && b < blocks && IsDequantised(ops, raw, dst)
    requires from == Radix(r, blocks * 256, 0) + b * 256 && from + 256 <= |dst|
    ensures MatrixRow(ops, raw, rows, blocks, r)[b] == dst[from..from + 256]
  {
    var block, part := MatrixRow(ops, raw, rows, blocks, r)[b], dst[from..from + 256];
    forall e | 0 <= e < 256
      ensures block[e] == part[e]
    {
      assert HasWeight(ops, raw, from + e, block[e]) by {
        RowOffset(r, blocks, b, e);
        RowIsDequantised(ops, raw, rows, blocks, r, b, e, Radix(r, blocks, b));
      }
      assert HasWeight(ops, raw, from + e, dst[from + e]);
    }
  }

  lemma CutOfSlice<T>(dst: seq<T>, start: nat, blocks: nat, b: nat)
    requires start + blocks * 256 <= |dst| && b < blocks
    ensures Cut(dst[start..start + blocks * 256], blocks)[b] == dst[start + b * 256..start + b * 256 + 256]
  {
    SliceOfSlice(dst, start, blocks * 256, b * 256, 256);
  }

  /** A row's blocks, joined, are its stretch of the dequantised matrix. */
  lemma RowOfDequantised<F>(ops: Ops<F>, raw: seq<Byte>, dst: seq<F>, rows: nat, blocks: nat, r: nat, start: nat)
    requires Holds(raw, rows, blocks) && r < rows && IsDequantised(ops, raw, dst)
    requires start == Radix(r, blocks * 256, 0) && start + blocks * 256 <= |dst|
    ensures Flat(MatrixRow(ops, raw, rows, blocks, r)) == dst[start..start + blocks * 256]
  {
    var slice, row := dst[start..start + blocks * 256], MatrixRow(ops, raw, rows, blocks, r);
    var cut := Cut(slice, blocks);
    forall b | 0 <= b < blocks
      ensures row[b] == cut[b]
    {
      CutOfSlice(dst, start, blocks, b);
      BlockOfDequantised(ops, raw, dst, rows, blocks, r, b, start + b * 256);
    }
    assert row == cut;
    FlatCut(slice, blocks);
  }

  /** So a kernel's output is the dot product of the row that `dequant_q4k` writes. */
  lemma ProductOfDequantised<F>(ops: Ops<F>, raw: seq<Byte>, out: seq<F>, x: seq<F>, dst: seq<F>, blocks: nat, r: nat)
    requires Holds(raw, |out|, blocks) && IsProduct(ops, raw, out, x, blocks) && r < |out|
    requires |dst| == Radix(|out|, blocks * 256, 0) && IsDequantised(ops, raw, dst)
    ensures
      var start := Radix(r, blocks * 256, 0);
      start + blocks * 256 <= |dst| && |x| == blocks * 256 && out[r] == Dot(ops, dst[start..start + blocks * 256], x)
  {
    var start := Radix(r, blocks * 256, 0);
    RadixNext(r, blocks * 256, |out|);
    RowOfDequantised(ops, raw, dst, |out|, blocks, r, start);
  }

  /** Every row, one after the other. */
  method SumRows<F>(ops: Ops<F>, raw: seq<Byte>, x: seq<F>, out: array<F>, blocks: nat, ghost m: seq<seq<seq<F>>>,
                    ghost xs: seq<seq<F>>)
    requires Fits(ops, raw, out.Length, blocks, x, m, xs) && Shaped(m, xs, out.Length, blocks)
    modifies out
    ensures RowsAt(ops, out[..], m, xs, blocks, blocks)
  {
    for row := 0 to out.Length
      invariant forall r :: 0 <= r < row ==> out[r] == RowSum(ops, m[r], xs, blocks)
    {
      out[row] := SumRow(ops, raw, out.Length, blocks, row, x, m, xs);
    }
  }

  /** `fused_gemv_q4k_scalar`: every output is the dot product of its dequantised row, with all
      float operations in the same order. */
  method Scalar<F>(ops: Ops<F>, raw: seq<Byte>, x: seq<F>, out: array<F>, blocks: nat)
    requires Holds(raw, out.Length, blocks) && |x| == blocks * 256
    modifies out
    ensures IsProduct(ops, raw, out[..], x, blocks)
  {
    ghost var m, xs := Matrix(ops, raw, out.Length, blocks), Cut(x, blocks);
    FitsShaped(ops, raw, out.Length, blocks, x, m, xs);
    SumRows(ops, raw, x, out, blocks, m, xs);
    RowsAreProduct(ops, raw, out[..], x, blocks, m, xs);
  }

  /** A block of every row of one matrix. */
  method AddBlockToAll<F>(ops: Ops<F>, raw: seq<Byte>, x: seq<F>, out: array<F>, blocks: nat, blk: nat,
                          ghost m: seq<seq<seq<F>>>, ghost xs: seq<seq<F>>)
    requires Fits(ops, raw, out.Length, blocks, x, m, xs) && Shaped(m, xs, out.Length, blocks) && blk < blocks
    requires RowsAt(ops, out[..], m, xs, blocks, blk)
    modifies out
    ensures RowsAt(ops, out[..], m, xs, blocks, blk + 1)
  {
    ghost var was := out[..];
    for row := 0 to out.Length
      invariant forall r :: 0 <= r < row ==> out[r] == RowSum(ops, m[r], xs, blk + 1)
      invariant forall r :: row <= r < out.Length ==> out[r] == was[r]
    {
      out[row] := AddBlock(ops, raw, out.Length, blocks, row, x, blk, m, xs, out[row]);
    }
  }

  method ClearRows<F>(ops: Ops<F>, out: array<F>, blocks: nat, ghost m: seq<seq<seq<F>>>, ghost xs: seq<seq<F>>)
    requires Shaped(m, xs, out.Length, blocks)
    modifies out
    ensures RowsAt(ops, out[..], m, xs, blocks, 0)
  {
    for r := 0 to out.Length
      invariant forall k :: 0 <= k < r ==> out[k] == ops.zero
    {
      out[r] := ops.zero;
    }
  }

  /** Matrices that share x, each with an output of its own. */
  ghost predicate Matrices<F>(ops: Ops<F>, raws: seq<seq<Byte>>, outs: seq<array<F>>, blocks: nat, x: seq<F>,
                              ms: seq<seq<seq<seq<F>>>>, xs: seq<seq<F>>)
  {
    && |raws| == |outs| == |ms| && Distinct(outs)
    && forall k :: 0 <= k < |outs| ==>
        Fits(ops, raws[k], outs[k].Length, blocks, x, ms[k], xs) && Shaped(ms[k], xs, outs[k].Length, blocks)
  }

  /** One block of x, used for every row of every matrix. */
  method AddBlockToMatrices<F>(ops: Ops<F>, raws: seq<seq<Byte>>, x: seq<F>, outs: seq<array<F>>, blocks: nat, blk: nat,
                               ghost ms: seq<seq<seq<seq<F>>>>, ghost xs: seq<seq<F>>)
    requires Matrices(ops, raws, outs, blocks, x, ms, xs) && blk < blocks
    requires forall k :: 0 <= k < |outs| ==> RowsAt(ops, outs[k][..], ms[k], xs, blocks, blk)
    modifies outs
    ensures forall k :: 0 <= k < |outs| ==> RowsAt(ops, outs[k][..], ms[k], xs, blocks, blk + 1)
  {
    for k := 0 to |outs|
      invariant forall j :: 0 <= j < k ==> RowsAt(ops, outs[j][..], ms[j], xs, blocks, blk + 1)
      invariant forall j :: k <= j < |outs| ==> RowsAt(ops, outs[j][..], ms[j], xs, blocks, blk)
    {
      AddBlockToAll(ops, raws[k], x, outs[k], blocks, blk, ms[k], xs);
    }
  }

  method ClearMatrices<F>(ops: Ops<F>, raws: seq<seq<Byte>>, x: seq<F>, outs: seq<array<F>>, blocks: nat,
                          ghost ms: seq<seq<seq<seq<F>>>>, ghost xs: seq<seq<F>>)
    requires Matrices(ops, raws, outs, blocks, x, ms, xs)
    modifies outs
    ensures forall k :: 0 <= k < |outs| ==> RowsAt(ops, outs[k][..], ms[k], xs, blocks, 0)
  {
    for k := 0 to |outs|
      invariant forall j :: 0 <= j < k ==> RowsAt(ops, outs[j][..], ms[j], xs, blocks, 0)
    {
      ClearRows(ops, outs[k], blocks, ms[k], xs);
    }
  }

  /** `fused_gemv_q4k_multi`: block-outer over several matrices, and still every output is the
      dot product of its dequantised row, with all float operations in the same order. */
  method Multi<F>(ops: Ops<F>, raws: seq<seq<Byte>>, x: seq<F>, outs: seq<array<F>>, blocks: nat)
    requires |raws| == |outs| && Distinct(outs) && |x| == blocks * 256
    requires forall k :: 0 <= k < |outs| ==> Holds(raws[k], outs[k].Length, blocks)
    modifies outs
    ensures forall k :: 0 <= k < |outs| ==> IsProduct(ops, raws[k], outs[k][..], x, blocks)
  {
    ghost var xs := Cut(x, blocks);
    ghost var ms := seq(|outs|, k requires 0 <= k < |outs| && Holds(raws[k], outs[k].Length, blocks) =>
      Matrix(ops, raws[k], outs[k].Length, blocks));
    forall k | 0 <= k < |outs|
      ensures Fits(ops, raws[k], outs[k].Length, blocks, x, ms[k], xs) && Shaped(ms[k], xs, outs[k].Length, blocks)
    {
      FitsShaped(ops, raws[k], outs[k].Length, blocks, x, ms[k], xs);
    }
    ClearMatrices(ops, raws, x, outs, blocks, ms, xs);
    for blk := 0 to blocks
      invariant forall k :: 0 <= k < |outs| ==> RowsAt(ops, outs[k][..], ms[k], xs, blocks, blk)
    {
      AddBlockToMatrices(ops, raws, x, outs, blocks, blk, ms, xs);
    }
    forall k | 0 <= k < |outs|
      ensures IsProduct(ops, raws[k], outs[k][..], x, blocks)
    {
      RowsAreProduct(ops, raws[k], outs[k][..], x, blocks, ms[k], xs);
    }
  }

  // ----- one weight block for a whole batch -----

  /** Addition may be regrouped: true of reals, not of floats. */
  ghost predicate Regroups<F(!new)>(ops: Ops<F>)
  {
    && (forall a, b, c {:trigger ops.add(ops.add(a, b), c)} :: ops.add(ops.add(a, b), c) == ops.add(a, ops.add(b, c)))
    && (forall a :: ops.add(a, ops.zero) == a)
    && (forall a :: ops.add(ops.zero, a) == a)
  }

  lemma {:induction false} FoldFromZero<F(!new)>(ops: Ops<F>, ws: seq<F>, x: seq<F>, acc: F, n: nat)
    requires Regroups(ops) && n <= |ws| && n <= |x|
    ensures ops.add(acc, Fold(ops, ws, x, ops.zero, n)) == Fold(ops, ws, x, acc, n)
  {
    if n > 0 {
      FoldFromZero(ops, ws, x, acc, n - 1);
    }
  }

  /** What the batched kernel adds up for a row: each block summed apart, on top of `init`. */
  function BlockSums<F>(ops: Ops<F>, row: seq<seq<F>>, x: seq<seq<F>>, init: F, n: nat): F
    requires n <= |row| == |x| && forall b :: 0 <= b < |row| ==> |row[b]| == |x[b]|
  {
    if n == 0 then init
    else ops.add(BlockSums(ops, row, x, init, n - 1), Fold(ops, row[n - 1], x[n - 1], ops.zero, |row[n - 1]|))
  }

  /** Where addition may be regrouped, that is the initial value plus the row's sum. */
  lemma {:induction false} BlockSumsAreRowSum<F(!new)>(ops: Ops<F>, row: seq<seq<F>>, x: seq<seq<F>>, init: F, n: nat)
    requires Regroups(ops) && n <= |row| == |x| && forall b :: 0 <= b < |row| ==> |row[b]| == |x[b]|
    ensures BlockSums(ops, row, x, init, n) == ops.add(init, RowSum(ops, row, x, n))
  {
    if n > 0 {
      BlockSumsAreRowSum(ops, row, x, init, n - 1);
      FoldFromZero(ops, row[n - 1], x[n - 1], RowSum(ops, row, x, n - 1), |row[n - 1]|);
    }
  }

  /** Reals regroup, so the batched kernel computes over reals what the scalar one does. */
  lemma RealsRegroup(ofNat: nat -> real, half: (Byte, Byte) -> real)
    ensures Regroups(Ops(0.0, (a: real, b: real) => a + b, (a: real, b: real) => a - b, (a: real, b: real) => a * b,
                         ofNat, half))
  {
  }

  /** An output has block blk added for the rows before `row`, and the blocks before it for all. */
  ghost predicate Summed<F>(ops: Ops<F>, out: seq<F>, init: seq<F>, m: seq<seq<seq<F>>>, xs: seq<seq<F>>, blocks: nat,
                            blk: nat, row: nat)
    requires |out| == |init| && Shaped(m, xs, |init|, blocks) && blk <= blocks && (row > 0 ==> blk < blocks)
  {
    forall r :: 0 <= r < |out| ==> out[r] == BlockSums(ops, m[r], xs, init[r], if r < row then blk + 1 else blk)
  }

  /** One block for one row and one vector of the batch. */
  method AddBlockSum<F>(ops: Ops<F>, raw: seq<Byte>, blocks: nat, x: seq<F>, ghost init: seq<F>, out: array<F>,
                        blk: nat, row: nat,
                        ghost m: seq<seq<seq<F>>>, ghost xs: seq<seq<F>>)
    requires out.Length == |init| && Fits(ops, raw, out.Length, blocks, x, m, xs) && Shaped(m, xs, out.Length, blocks)
    requires blk < blocks && row < out.Length && Summed(ops, out[..], init, m, xs, blocks, blk, row)
    modifies out
    ensures Summed(ops, out[..], init, m, xs, blocks, blk, row + 1)
  {
    ghost var was := out[..];
    var acc := AddBlock(ops, raw, out.Length, blocks, row, x, blk, m, xs, ops.zero);
    out[row] := ops.add(out[row], acc);
    assert out[..] == was[row := out[row]];
  }

  /** Vectors of a batch, each with an output of its own and what that held at first. */
  ghost predicate Batch<F>(ops: Ops<F>, raw: seq<Byte>, rows: nat, blocks: nat, xs: seq<seq<F>>, outs: seq<array<F>>,
                           inits: seq<seq<F>>,
                           m: seq<seq<seq<F>>>, cuts: seq<seq<seq<F>>>)
  {
    && |xs| == |outs| == |inits| == |cuts| && Distinct(outs)
    && (forall t :: 0 <= t < |outs| ==>
          outs[t].Length == |inits[t]| == rows && Fits(ops, raw, rows, blocks, xs[t], m, cuts[t]) &&
              Shaped(m, cuts[t], rows, blocks))
  }

  /** The block for one row, added for the first n vectors of the batch. */
  ghost predicate RowAdded<F>(ops: Ops<F>, outs: seq<array<F>>, rows: nat, blocks: nat, inits: seq<seq<F>>, blk: nat,
                              row: nat, m: seq<seq<seq<F>>>, cuts: seq<seq<seq<F>>>, n: nat)
    requires |outs| == |inits| == |cuts| && blk < blocks
    requires forall t :: 0 <= t < |outs| ==> outs[t].Length == |inits[t]| == rows && Shaped(m, cuts[t], rows, blocks)
    reads outs
  {
    forall k :: 0 <= k < |outs| ==>
      Summed(ops, outs[k][..], inits[k], m, cuts[k], blocks, blk, if k < n then row + 1 else row)
  }

  method AddToNext<F>(ops: Ops<F>, raw: seq<Byte>, rows: nat, blocks: nat, xs: seq<seq<F>>, outs: seq<array<F>>,
                      ghost inits: seq<seq<F>>, blk: nat, row: nat, ghost m: seq<seq<seq<F>>>,
                      ghost cuts: seq<seq<seq<F>>>, t: nat)
    requires Batch(ops, raw, rows, blocks, xs, outs, inits, m, cuts) && blk < blocks && row < rows && t < |outs|
    requires RowAdded(ops, outs, rows, blocks, inits, blk, row, m, cuts, t)
    modifies outs[t]
    ensures RowAdded(ops, outs, rows, blocks, inits, blk, row, m, cuts, t + 1)
  {
    AddBlockSum(ops, raw, blocks, xs[t], inits[t], outs[t], blk, row, m, cuts[t]);
    forall k | 0 <= k < |outs|
      ensures Summed(ops, outs[k][..], inits[k], m, cuts[k], blocks, blk, if k < t + 1 then row + 1 else row)
    {
      if k != t {
        assert outs[k] != outs[t];
        assert outs[k][..] == old(outs[k][..]);
      }
    }
  }

  method AddRowToBatch<F>(ops: Ops<F>, raw: seq<Byte>, rows: nat, blocks: nat, xs: seq<seq<F>>, outs: seq<array<F>>,
                          ghost inits: seq<seq<F>>, blk: nat, row: nat, ghost m: seq<seq<seq<F>>>,
                          ghost cuts: seq<seq<seq<F>>>)
    requires Batch(ops, raw, rows, blocks, xs, outs, inits, m, cuts) && blk < blocks && row < rows
    requires forall t :: 0 <= t < |outs| ==> Summed(ops, outs[t][..], inits[t], m, cuts[t], blocks, blk, row)
    modifies outs
    ensures forall t :: 0 <= t < |outs| ==> Summed(ops, outs[t][..], inits[t], m, cuts[t], blocks, blk, row + 1)
  {
    for t := 0 to |outs|
      invariant RowAdded(ops, outs, rows, blocks, inits, blk, row, m, cuts, t)
    {
      AddToNext(ops, raw, rows, blocks, xs, outs, inits, blk, row, m, cuts, t);
    }
  }

  /** A block with all its rows added is the block before it done. */
  lemma NextBlock<F>(ops: Ops<F>, out: seq<F>, init: seq<F>, m: seq<seq<seq<F>>>, xs: seq<seq<F>>, blocks: nat,
                     blk: nat)
    requires |out| == |init| && Shaped(m, xs, |init|, blocks) && blk < blocks &&
        Summed(ops, out, init, m, xs, blocks, blk, |init|)
    ensures Summed(ops, out, init, m, xs, blocks, blk + 1, 0)
  {
  }

  /** Every weight block, once for the whole batch. */
  method AddBlocksToBatch<F>(ops: Ops<F>, raw: seq<Byte>, rows: nat, blocks: nat, xs: seq<seq<F>>, outs: seq<array<F>>,
                             ghost inits: seq<seq<F>>, ghost m: seq<seq<seq<F>>>, ghost cuts: seq<seq<seq<F>>>)
    requires Batch(ops, raw, rows, blocks, xs, outs, inits, m, cuts)
    requires forall t :: 0 <= t < |outs| ==> outs[t][..] == inits[t]
    modifies outs
    ensures forall t :: 0 <= t < |outs| ==> Summed(ops, outs[t][..], inits[t], m, cuts[t], blocks, blocks, 0)
  {
    for blk := 0 to blocks
      invariant forall t :: 0 <= t < |outs| ==> Summed(ops, outs[t][..], inits[t], m, cuts[t], blocks, blk, 0)
    {
      for row := 0 to rows
        invariant forall t :: 0 <= t < |outs| ==> Summed(ops, outs[t][..], inits[t], m, cuts[t], blocks, blk, row)
      {
        AddRowToBatch(ops, raw, rows, blocks, xs, outs, inits, blk, row, m, cuts);
      }
      forall t | 0 <= t < |outs|
        ensures Summed(ops, outs[t][..], inits[t], m, cuts[t], blocks, blk + 1, 0)
      {
        NextBlock(ops, outs[t][..], inits[t], m, cuts[t], blocks, blk);
      }
    }
  }

  /** Every output has gained its row's block sums, in the order of the blocks. */
  ghost predicate GainsBlockSums<F>(ops: Ops<F>, raw: seq<Byte>, init: seq<F>, out: seq<F>, x: seq<F>, blocks: nat)
    requires Holds(raw, |out|, blocks) && |init| == |out| && |x| == blocks * 256
  {
    forall r :: 0 <= r < |out| ==>
        out[r] == BlockSums(ops, MatrixRow(ops, raw, |out|, blocks, r), Cut(x, blocks), init[r], blocks)
  }

  /** Every output has gained its dequantised row's dot product with x. */
  ghost predicate GainsProduct<F>(ops: Ops<F>, raw: seq<Byte>, init: seq<F>, out: seq<F>, x: seq<F>, blocks: nat)
    requires Holds(raw, |out|, blocks) && |init| == |out|
  {
    forall r :: 0 <= r < |out| ==>
      var row := Flat(MatrixRow(ops, raw, |out|, blocks, r));
      |row| == |x| && out[r] == ops.add(init[r], Dot(ops, row, x))
  }

  /** Where addition regroups, the block sums add up to the dequantised rows' dot products: on
      zeroed outputs the batched kernel computes what the scalar one does. */
  lemma BlockSumsAreProduct<F(!new)>(ops: Ops<F>, raw: seq<Byte>, init: seq<F>, out: seq<F>, x: seq<F>, blocks: nat)
    requires Regroups(ops) && Holds(raw, |out|, blocks) && |init| == |out| && |x| == blocks * 256
    requires GainsBlockSums(ops, raw, init, out, x, blocks)
    ensures GainsProduct(ops, raw, init, out, x, blocks)
    ensures (forall r :: 0 <= r < |init| ==> init[r] == ops.zero) ==> IsProduct(ops, raw, out, x, blocks)
  {
    FlatCut(x, blocks);
    forall r | 0 <= r < |out|
      ensures
        var row := Flat(MatrixRow(ops, raw, |out|, blocks, r));
        |row| == |x| && out[r] == ops.add(init[r], Dot(ops, row, x))
    {
      var row := MatrixRow(ops, raw, |out|, blocks, r);
      BlockSumsAreRowSum(ops, row, Cut(x, blocks), init[r], blocks);
      RowSumIsDot(ops, row, Cut(x, blocks));
    }
  }

  lemma SummedGains<F>(ops: Ops<F>, raw: seq<Byte>, blocks: nat, x: seq<F>, init: seq<F>, out: seq<F>,
                       m: seq<seq<seq<F>>>, xs: seq<seq<F>>)
    requires |out| == |init| && Fits(ops, raw, |out|, blocks, x, m, xs) && Shaped(m, xs, |out|, blocks)
    requires Summed(ops, out, init, m, xs, blocks, blocks, 0)
    ensures GainsBlockSums(ops, raw, init, out, x, blocks)
  {
  }

  /** `batched_scalar`: every weight block is unpacked once for the whole batch; each output gains
      its row's block sums, which over reals is the dequantised row's dot product. */
  method Batched<F(!new)>(ops: Ops<F>, raw: seq<Byte>, rows: nat, blocks: nat, xs: seq<seq<F>>, outs: seq<array<F>>)
    requires Holds(raw, rows, blocks) && |xs| == |outs| && Distinct(outs)
    requires forall t :: 0 <= t < |outs| ==> |xs[t]| == blocks * 256 && outs[t].Length == rows
    modifies outs
    ensures forall t :: 0 <= t < |outs| ==> GainsBlockSums(ops, raw, old(outs[t][..]), outs[t][..], xs[t], blocks)
    ensures Regroups(ops) ==> forall t :: 0 <= t < |outs| ==>
        GainsProduct(ops, raw, old(outs[t][..]), outs[t][..], xs[t], blocks)
  {
    ghost var inits := seq(|outs|, t requires 0 <= t < |outs| reads outs => outs[t][..]);
    ghost var cuts := seq(|outs|, t requires 0 <= t < |outs| && |xs[t]| == blocks * 256 => Cut(xs[t], blocks));
    ghost var m := Matrix(ops, raw, rows, blocks);
    forall t | 0 <= t < |outs|
      ensures Shaped(m, cuts[t], rows, blocks)
    {
      FitsShaped(ops, raw, rows, blocks, xs[t], m, cuts[t]);
    }
    AddBlocksToBatch(ops, raw, rows, blocks, xs, outs, inits, m, cuts);
    forall t | 0 <= t < |outs|
      ensures GainsBlockSums(ops, raw, inits[t], outs[t][..], xs[t], blocks)
    {
      SummedGains(ops, raw, blocks, xs[t], inits[t], outs[t][..], m, cuts[t]);
    }
    if Regroups(ops) {
      forall t | 0 <= t < |outs|
        ensures GainsProduct(ops, raw, inits[t], outs[t][..], xs[t], blocks)
      {
        BlockSumsAreProduct(ops, raw, inits[t], outs[t][..], xs[t], blocks);
      }
    }
  }
}
