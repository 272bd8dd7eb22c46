// The 4-bit form of cached keys and values: one block of up to 32 numbers in 20 bytes.
module KvQuant {
  import opened Common

  // Largest finite f32, where the running minimum starts.
  const F32_MAX: real := 340282346638528859811704183484516925440.0
  const TINY: real := 0.0000000001

  type F32 = x: real | -F32_MAX <= x <= F32_MAX

  /** The f16 conversion of block headers, uninterpreted. */
  datatype Half = Half(encode: real -> (Byte, Byte), decode: (Byte, Byte) -> real) {
    function Rounded(x: real): real
    {
      var (a, b) := encode(x);
      decode(a, b)
    }
  }

  function Abs(x: real): (r: real)
    ensures r >= 0.0 && (r == x || r == -x)
  {
    if x < 0.0 then -x else x
  }

  // ----- quantising one block -----

  function MaxAbs(src: seq<F32>): (r: real)
    ensures r >= 0.0
  {
    if src == [] then 0.0
    else var m := MaxAbs(src[..|src| - 1]); if Abs(src[|src| - 1]) > m then Abs(src[|src| - 1]) else m
  }

  function Least(src: seq<F32>): real
  {
    if src == [] then F32_MAX
    else var m := Least(src[..|src| - 1]); if src[|src| - 1] < m then src[|src| - 1] else m
  }

  function Scale(src: seq<F32>): (d: real)
    ensures d >= 0.0
  {
    if MaxAbs(src) > TINY then MaxAbs(src) / 7.0 else 0.0
  }

  /** `f32::round` on the numbers it meets here, which are not negative. */
  function Round(x: real): int
  {
    (x + 0.5).Floor
  }

  function Clamped(n: int): (q: nat)
    ensures q <= 15
  {
    if n < 0 then 0 else if n > 15 then 15 else n
  }

  function Quant(x: real, d: real, dmin: real): (q: nat)
    ensures q <= 15
  {
    if d > TINY then Clamped(Round((x - dmin) / d)) else 0
  }

  lemma {:induction false} MaxAbsBounds(src: seq<F32>, i: nat)
    requires i < |src|
    ensures Abs(src[i]) <= MaxAbs(src)
  {
    if i < |src| - 1 {
      MaxAbsBounds(src[..|src| - 1], i);
    }
  }

  /** The largest magnitude is some element's. */
  lemma {:induction false} MaxAbsAttained(src: seq<F32>)
    requires src != []
    ensures exists i :: 0 <= i < |src| && Abs(src[i]) == MaxAbs(src)
  {
    var rest := src[..|src| - 1];
    if rest != [] {
      MaxAbsAttained(rest);
      var i :| 0 <= i < |rest| && Abs(rest[i]) == MaxAbs(rest);
      assert Abs(src[i]) == MaxAbs(rest);
    }
    assert Abs(src[|src| - 1]) == MaxAbs(src) || (rest != [] && MaxAbs(src) == MaxAbs(rest));
  }

  lemma {:induction false} LeastBounds(src: seq<F32>, i: nat)
    requires i < |src|
    ensures Least(src) <= src[i]
    ensures Abs(Least(src)) <= MaxAbs(src)
  {
    var rest := src[..|src| - 1];
    if i < |src| - 1 {
      LeastBounds(rest, i);
    } else if |rest| > 0 {
      LeastBounds(rest, 0);
    }
  }

  /** The least element is one of the block's. */
  lemma {:induction false} LeastAttained(src: seq<F32>)
    requires src != []
    ensures Least(src) in src
  {
    if |src| > 1 {
      LeastAttained(src[..|src| - 1]);
    } else {
      assert src[..0] == [];
    }
  }

  /** A block of equal numbers. */
  lemma {:induction false} ConstantBlock(src: seq<F32>, x: F32)
    requires src != [] && forall i :: 0 <= i < |src| ==> src[i] == x
    ensures MaxAbs(src) == Abs(x) && Least(src) == x
  {
    if |src| > 1 {
      ConstantBlock(src[..|src| - 1], x);
    } else {
      assert src[..0] == [];
    }
  }

  lemma MulNonNegative(a: real, b: real)
    requires a >= 0.0 && b >= 0.0
    ensures a * b >= 0.0
  {
  }

  /** A product is at most the bound of one factor times the other. */
  lemma MulBound(d: real, e: real, h: real)
    requires d >= 0.0 && -h <= e <= h
    ensures -(d * h) <= d * e <= d * h
  {
    MulNonNegative(d, h - e);
    MulNonNegative(d, h + e);
    assert d * (h - e) == d * h - d * e && d * (h + e) == d * h + d * e;
  }

  lemma QuotientBounds(z: real, d: real, c: real)
    requires d > 0.0 && 0.0 <= z <= c * d
    ensures z / d * d == z && 0.0 <= z / d <= c
  {
    var y := z / d;
    assert y * d == z;
    if y > c {
      ProductGrows(y, c, d);
    }
    if y < 0.0 {
      ProductGrows(0.0, y, d);
    }
  }

  lemma ProductGrows(a: real, b: real, d: real)
    requires a > b && d > 0.0
    ensures a * d > b * d
  {
    MulPositive(a - b, d);
    assert (a - b) * d == a * d - b * d;
  }

  lemma MulPositive(a: real, b: real)
    requires a > 0.0 && b > 0.0
    ensures a * b > 0.0
  {
  }

  /** The nearest step to y is within half a step. */
  lemma NearestStep(x: real, d: real, dmin: real, y: real, q: int)
    requires d >= 0.0 && y * d == x - dmin && q == Round(y)
    ensures Abs(d * q as real + dmin - x) <= d * 0.5
  {
    var e := q as real - y;
    MulBound(d, e, 0.5);
    assert d * e == d * q as real - d * y;
  }

  /** The n-th level of a step d: repeated addition, to keep products away from the solver. */
  function Steps(d: real, n: nat): real
  {
    if n == 0 then 0.0 else Steps(d, n - 1) + d
  }

  lemma {:induction false} StepsIs(d: real, n: nat)
    ensures Steps(d, n) == d * n as real
  {
    if n > 0 {
      StepsIs(d, n - 1);
      assert d * n as real == d * (n - 1) as real + d;
    }
  }

  /** Quantising is to the nearest step: over reals, the clamp to 15 never bites. */
  lemma QuantIsNearest(x: real, d: real, dmin: real, mx: real)
    requires d > TINY && d == mx / 7.0 && dmin <= x && Abs(x) <= mx && Abs(dmin) <= mx
    ensures Round((x - dmin) / d) == Quant(x, d, dmin) <= 14
    ensures Abs(Steps(d, Quant(x, d, dmin)) + dmin - x) <= d * 0.5
  {
    assert x - dmin <= 14.0 * d;
    QuotientBounds(x - dmin, d, 14.0);
    NearestStep(x, d, dmin, (x - dmin) / d, Round((x - dmin) / d));
    StepsIs(d, Quant(x, d, dmin));
  }

  /** What a block of this magnitude loses, apart from its header's rounding. */
  function Tolerance(maxAbs: real): real
  {
    if maxAbs / 14.0 > 0.0000000014 then maxAbs / 14.0 else 0.0000000014
  }

  /** Levels of two steps differ by no more than that many differences. */
  lemma {:induction false} StepsDiffer(rd: real, d: real, n: nat, m: nat)
    requires n <= m
    ensures Abs(Steps(rd, n) - Steps(d, n)) <= Steps(Abs(rd - d), m)
    decreases m
  {
    if n == m {
      if n > 0 { StepsDiffer(rd, d, n - 1, m - 1); }
    } else {
      StepsDiffer(rd, d, n, m - 1);
    }
  }

  /** The nibbles of a block. */
  function Levels(src: seq<F32>): (r: seq<nat>)
    ensures |r| == |src| && forall i :: 0 <= i < |r| ==> r[i] < 16
  {
    var d, dmin := Scale(src), Least(src);
    seq(|src|, i requires 0 <= i < |src| => Quant(src[i], d, dmin))
  }

  /** How far an element is from its level, under the exact header. */
  lemma LevelError(src: seq<F32>, i: nat)
    requires i < |src|
    ensures Levels(src)[i] <= 14
    ensures Abs(Steps(Scale(src), Levels(src)[i]) + Least(src) - src[i]) <= Tolerance(MaxAbs(src))
  {
    MaxAbsBounds(src, i);
    LeastBounds(src, i);
    if Scale(src) > TINY {
      QuantIsNearest(src[i], Scale(src), Least(src), MaxAbs(src));
    }
  }

  /** How far an element is from its dequantised value, under the header actually stored. */
  lemma QuantError(src: seq<F32>, i: nat, rd: real, rmin: real)
    requires i < |src|
    ensures Abs(Steps(rd, Levels(src)[i]) + rmin - src[i])
         <= Tolerance(MaxAbs(src)) + 14.0 * Abs(rd - Scale(src)) + Abs(rmin - Least(src))
  {
    LevelError(src, i);
    StepsDiffer(rd, Scale(src), Levels(src)[i], 14);
    StepsIs(Abs(rd - Scale(src)), 14);
  }
}
