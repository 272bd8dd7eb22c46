// What the fused kernels compute where their operations are those of the reals: a product that is
// linear in the vector, and that a unit vector takes the matrix's own weights from.
module GemvReals {
  import opened Common
  import opened MixedRadix
  import opened Q4K
  import opened FusedGemv

  ghost predicate IsReal(ops: Ops<real>)
  {
    && ops.zero == 0.0
    && (forall a, b :: ops.add(a, b) == a + b)
    && (forall a, b :: ops.sub(a, b) == a - b)
    && (forall a, b :: ops.mul(a, b) == a * b)
  }

  lemma RealIsRegrouped(ops: Ops<real>)
    requires IsReal(ops)
    ensures Regroups(ops)
  {
    forall a, b, c {:trigger ops.add(ops.add(a, b), c)}
      ensures ops.add(ops.add(a, b), c) == ops.add(a, ops.add(b, c))
    {
    }
    forall a
      ensures ops.add(a, ops.zero) == a && ops.add(ops.zero, a) == a
    {
    }
  }

  // ----- one row -----

  lemma FoldStep(ops: Ops<real>, ws: seq<real>, xs: seq<real>, n: nat)
    requires IsReal(ops) && 0 < n <= |ws| && n <= |xs|
    ensures Fold(ops, ws, xs, ops.zero, n) == Fold(ops, ws, xs, ops.zero, n - 1) + ws[n - 1] * xs[n - 1]
    ensures Fold(ops, ws, xs, ops.zero, 0) == 0.0
  {
    var before: real, w: real, x: real := Fold(ops, ws, xs, ops.zero, n - 1), ws[n - 1], xs[n - 1];
    assert ops.add(before, ops.mul(w, x)) == before + w * x;
  }

  lemma {:induction false} FoldOfZero(ops: Ops<real>, ws: seq<real>, xs: seq<real>, n: nat)
    requires IsReal(ops) && n <= |ws| && n <= |xs| && forall i :: 0 <= i < n ==> xs[i] == 0.0
    ensures Fold(ops, ws, xs, ops.zero, n) == 0.0
  {
    if n > 0 {
      FoldOfZero(ops, ws, xs, n - 1);
      FoldStep(ops, ws, xs, n);
    }
  }

  lemma {:induction false} FoldAdds(ops: Ops<real>, ws: seq<real>, xs: seq<real>, ys: seq<real>, zs: seq<real>, n: nat)
    requires IsReal(ops) && n <= |ws| && n <= |xs| == |ys| == |zs|
    requires forall i :: 0 <= i < n ==> zs[i] == xs[i] + ys[i]
    ensures Fold(ops, ws, zs, ops.zero, n) == Fold(ops, ws, xs, ops.zero, n) + Fold(ops, ws, ys, ops.zero, n)
  {
    if n > 0 {
      FoldAdds(ops, ws, xs, ys, zs, n - 1);
      FoldStep(ops, ws, xs, n);
      FoldStep(ops, ws, ys, n);
      FoldStep(ops, ws, zs, n);
      assert ws[n - 1] * zs[n - 1] == ws[n - 1] * xs[n - 1] + ws[n - 1] * ys[n - 1];
    }
  }

  lemma {:induction false} FoldScales(ops: Ops<real>, ws: seq<real>, xs: seq<real>, ys: seq<real>, k: real, n: nat)
    requires IsReal(ops) && n <= |ws| && n <= |xs| == |ys| && forall i :: 0 <= i < n ==> ys[i] == k * xs[i]
    ensures Fold(ops, ws, ys, ops.zero, n) == k * Fold(ops, ws, xs, ops.zero, n)
  {
    if n > 0 {
      FoldScales(ops, ws, xs, ys, k, n - 1);
      FoldStep(ops, ws, xs, n);
      FoldStep(ops, ws, ys, n);
      Factor(k, Fold(ops, ws, xs, ops.zero, n - 1), ws[n - 1], xs[n - 1]);
    }
  }

  lemma Factor(k: real, a: real, w: real, x: real)
    ensures k * a + w * (k * x) == k * (a + w * x)
  {
  }

  /** The j-th unit vector. */
  ghost predicate IsUnit(xs: seq<real>, j: nat)
  {
    forall i :: 0 <= i < |xs| ==> xs[i] == if i == j then 1.0 else 0.0
  }

  lemma {:induction false} FoldOfUnit(ops: Ops<real>, ws: seq<real>, xs: seq<real>, j: nat, n: nat)
    requires IsReal(ops) && IsUnit(xs, j) && n <= |ws| && n <= |xs|
    ensures Fold(ops, ws, xs, ops.zero, n) == if j < n then ws[j] else 0.0
  {
    if n > 0 {
      FoldOfUnit(ops, ws, xs, j, n - 1);
      FoldStep(ops, ws, xs, n);
    }
  }

  lemma UnitOfRow(ops: Ops<real>, ws: seq<real>, x: seq<real>, j: nat)
    requires IsReal(ops) && |ws| == |x| && IsUnit(x, j) && j < |x|
    ensures Dot(ops, ws, x) == ws[j]
  {
    FoldOfUnit(ops, ws, x, j, |x|);
  }

  // ----- the outputs of a kernel -----

  lemma ProductOfZero(ops: Ops<real>, raw: seq<Byte>, out: seq<real>, x: seq<real>, blocks: nat)
    requires IsReal(ops) && Holds(raw, |out|, blocks) && IsProduct(ops, raw, out, x, blocks)
    requires forall i :: 0 <= i < |x| ==> x[i] == 0.0
    ensures forall r :: 0 <= r < |out| ==> out[r] == 0.0
  {
    forall r | 0 <= r < |out|
      ensures out[r] == 0.0
    {
      FoldOfZero(ops, Flat(MatrixRow(ops, raw, |out|, blocks, r)), x, |x|);
    }
  }

  /** The outputs for a sum of vectors are the sums of the outputs. */
  lemma ProductAdds(ops: Ops<real>, raw: seq<Byte>, blocks: nat, x: seq<real>, y: seq<real>, z: seq<real>,
                    outX: seq<real>, outY: seq<real>, outZ: seq<real>, r: nat)
    requires IsReal(ops) && |x| == |y| == |z| && r < |outX| == |outY| == |outZ| && Holds(raw, |outX|, blocks)
    requires IsProduct(ops, raw, outX, x, blocks) && IsProduct(ops, raw, outY, y, blocks)
    requires IsProduct(ops, raw, outZ, z, blocks) && forall i :: 0 <= i < |z| ==> z[i] == x[i] + y[i]
    ensures outZ[r] == outX[r] + outY[r]
  {
    FoldAdds(ops, Flat(MatrixRow(ops, raw, |outX|, blocks, r)), x, y, z, |x|);
  }

  lemma ProductScales(ops: Ops<real>, raw: seq<Byte>, blocks: nat, x: seq<real>, y: seq<real>, k: real,
                      outX: seq<real>, outY: seq<real>, r: nat)
    requires IsReal(ops) && |x| == |y| && r < |outX| == |outY| && Holds(raw, |outX|, blocks)
    requires IsProduct(ops, raw, outX, x, blocks) && IsProduct(ops, raw, outY, y, blocks)
    requires forall i :: 0 <= i < |y| ==> y[i] == k * x[i]
    ensures outY[r] == k * outX[r]
  {
    FoldScales(ops, Flat(MatrixRow(ops, raw, |outX|, blocks, r)), x, y, k, |x|);
  }

  /** The output for the j-th unit vector is weight j of the row, as `dequant_q4k` writes it. */
  lemma ProductOfUnit(ops: Ops<real>, raw: seq<Byte>, out: seq<real>, x: seq<real>, dst: seq<real>, blocks: nat,
                      r: nat, j: nat)
    requires IsReal(ops) && Holds(raw, |out|, blocks) && IsProduct(ops, raw, out, x, blocks) && r < |out|
    requires IsUnit(x, j) && j < |x|
    requires |dst| == Radix(|out|, blocks * 256, 0) && IsDequantised(ops, raw, dst)
    ensures Radix(r, blocks * 256, j) < |dst| && out[r] == dst[Radix(r, blocks * 256, j)]
  {
    hide *;
    var start := Radix(r, blocks * 256, 0);
    ProductOfDequantised(ops, raw, out, x, dst, blocks, r);
    UnitOfRow(ops, dst[start..start + blocks * 256], x, j);
    RadixShift(r, blocks * 256, j);
  }

  /** What a batched output gains is such a product. */
  lemma GainIsProduct(ops: Ops<real>, raw: seq<Byte>, init: seq<real>, out: seq<real>, gain: seq<real>, x: seq<real>,
                      blocks: nat)
    requires IsReal(ops) && |init| == |out| == |gain| && Holds(raw, |out|, blocks) && |x| == blocks * 256
    requires GainsBlockSums(ops, raw, init, out, x, blocks)
    requires forall r :: 0 <= r < |out| ==> gain[r] == out[r] - init[r]
    ensures IsProduct(ops, raw, gain, x, blocks)
  {
    RealIsRegrouped(ops);
    BlockSumsAreProduct(ops, raw, init, out, x, blocks);
    forall r | 0 <= r < |gain|
      ensures
        var row := Flat(MatrixRow(ops, raw, |gain|, blocks, r));
        |row| == |x| && gain[r] == Dot(ops, row, x)
    {
      assert out[r] == init[r] + Dot(ops, Flat(MatrixRow(ops, raw, |out|, blocks, r)), x);
    }
  }
}
