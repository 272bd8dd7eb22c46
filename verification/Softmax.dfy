// The fixed-point softmax: Q16.16 exponentials, one reciprocal, scalar and vector normalisation.
module Softmax {
  import opened Common
  import V = Vnni

  type I32 = V.I32

  /** e^x in Q16.16, as `exp_q16_16` computes it from a float exponential of the middle range. */
  datatype Exp = Exp(middle: int -> nat)

  function Value(exp: Exp, x: int): nat
  {
    if x < -655360 then 0 else if x >= 0 then 65536 else exp.middle(x)
  }

  /** The float exponential of a negative number rounds to at most 1, and is monotone. */
  ghost predicate Sound(exp: Exp)
  {
    && (forall x :: -655360 <= x < 0 ==> exp.middle(x) <= 65536)
    && (forall x, y :: -655360 <= x <= y < 0 ==> exp.middle(x) <= exp.middle(y))
  }

  lemma ValueBounds(exp: Exp, x: int, y: int)
    requires Sound(exp) && x <= y
    ensures Value(exp, x) <= Value(exp, y) <= 65536
  {
  }

  // ----- the maximum, in 16 lanes -----

  function Larger(a: I32, b: I32): I32
  {
    if a > b then a else b
  }

  const LOWEST: I32 := -0x8000_0000

  /** The largest of the first n, or the lowest number. */
  function Largest(s: seq<I32>, n: nat): I32
    requires n <= |s|
  {
    if n == 0 then LOWEST else Larger(Largest(s, n - 1), s[n - 1])
  }

  lemma {:induction false} LargestIsMax(s: seq<I32>, n: nat, k: nat)
    requires 0 < n <= |s|
    ensures k < n ==> s[k] <= Largest(s, n)
    ensures exists j :: 0 <= j < n && s[j] == Largest(s, n)
  {
    if n == 1 {
      assert s[0] == Largest(s, 1);
    } else {
      LargestIsMax(s, n - 1, k);
      var j :| 0 <= j < n - 1 && s[j] == Largest(s, n - 1);
      assert s[n - 1] == Largest(s, n) || s[j] == Largest(s, n);
    }
  }

  /** Lane by lane, the larger of two sequences. */
  lemma {:induction false} LargestZips(a: seq<I32>, b: seq<I32>, c: seq<I32>, n: nat)
    requires n <= |a| == |b| == |c| && forall l :: 0 <= l < |c| ==> c[l] == Larger(a[l], b[l])
    ensures Largest(c, n) == Larger(Largest(a, n), Largest(b, n))
  {
    if n > 0 {
      LargestZips(a, b, c, n - 1);
    }
  }

  lemma {:induction false} LargestJoins(s: seq<I32>, from: nat, part: seq<I32>, n: nat)
    requires n <= |part| && from + |part| <= |s| && forall l :: 0 <= l < |part| ==> part[l] == s[from + l]
    ensures Largest(s, from + n) == Larger(Largest(s, from), Largest(part, n))
  {
    if n > 0 {
      LargestJoins(s, from, part, n - 1);
    }
  }

  /** Keep the larger of each pair of lanes, half the register apart. */
  function HalvedMax(s: seq<I32>, h: nat): (r: seq<I32>)
    requires |s| == 2 * h
    ensures |r| == h
  {
    seq(h, l requires 0 <= l < h => Larger(s[l], s[l + h]))
  }

  lemma HalvedMaxKeeps(s: seq<I32>, h: nat)
    requires |s| == 2 * h
    ensures Largest(HalvedMax(s, h), h) == Largest(s, 2 * h)
  {
    var low: seq<I32>, high: seq<I32> := seq(h, l requires 0 <= l < h => s[l]),
        seq(h, l requires 0 <= l < h => s[l + h]);
    LargestZips(low, high, HalvedMax(s, h), h);
    LargestJoins(s, 0, low, h);
    LargestJoins(s, h, high, h);
  }

  /** The horizontal reduction, 16 lanes to 8, 4, 2 and 1. */
  function ReducedMax(s: seq<I32>): I32
    requires |s| == 16
  {
    HalvedMax(HalvedMax(HalvedMax(HalvedMax(s, 8), 4), 2), 1)[0]
  }

  lemma ReducedMaxIs(s: seq<I32>)
    requires |s| == 16
    ensures ReducedMax(s) == Largest(s, 16)
  {
    var a := HalvedMax(s, 8);
    var b := HalvedMax(a, 4);
    var c := HalvedMax(b, 2);
    var d := HalvedMax(c, 1);
    HalvedMaxKeeps(s, 8);
    HalvedMaxKeeps(a, 4);
    HalvedMaxKeeps(b, 2);
    HalvedMaxKeeps(c, 1);
    assert Largest(d, 1) == d[0];
  }

  /** One vector turn takes sixteen more elements into the lanes. */
  lemma LanesTurn(lanes: seq<I32>, next: seq<I32>, s: seq<I32>, i: nat)
    requires |lanes| == |next| == 16 && i + 16 <= |s| && Largest(lanes, 16) == Largest(s, i)
    requires forall l :: 0 <= l < 16 ==> next[l] == Larger(lanes[l], s[i + l])
    ensures Largest(next, 16) == Largest(s, i + 16)
  {
    var part: seq<I32> := seq(16, l requires 0 <= l < 16 => s[i + l]);
    LargestZips(lanes, part, next, 16);
    LargestJoins(s, i, part, 16);
  }

  /** The largest logit: sixteen lanes, their reduction, then the rest one by one. */
  method Maximum(s: seq<I32>) returns (m: I32)
    ensures m == Largest(s, |s|)
  {
    var lanes: seq<I32>, i := seq(16, _ => LOWEST), 0;
    LowestLanes(lanes, 16);
    while i + 16 <= |s|
      invariant i <= |s| && |lanes| == 16 && Largest(lanes, 16) == Largest(s, i)
    {
      var next: seq<I32> := seq(16, l requires 0 <= l < 16 => Larger(lanes[l], s[i + l]));
      LanesTurn(lanes, next, s, i);
      lanes, i := next, i + 16;
    }
    ReducedMaxIs(lanes);
    m := ReducedMax(lanes);
    while i < |s|
      invariant i <= |s| && m == Largest(s, i)
    {
      m, i := Larger(m, s[i]), i + 1;
    }
  }

  lemma {:induction false} LowestLanes(lanes: seq<I32>, n: nat)
    requires n <= |lanes| && forall l :: 0 <= l < |lanes| ==> lanes[l] == LOWEST
    ensures Largest(lanes, n) == LOWEST
  {
    if n > 0 {
      LowestLanes(lanes, n - 1);
    }
  }

  // ----- normalisation -----

  function Sum(es: seq<nat>, n: nat): nat
    requires n <= |es|
  {
    if n == 0 then 0 else Sum(es, n - 1) + es[n - 1]
  }

  /** The reciprocal in 32 fractional bits. */
  function Inverse(sum: nat): nat
    requires sum > 0
  {
    0x1_0000_0000 / sum
  }

  /** The scalar path: a 64-bit product shifted right by 16. */
  function ScalarOut(e: nat, inv: nat): nat
  {
    e * inv / 65536
  }

  /** The vector path: only the low 32 bits of the product are kept, and shifted unsigned. */
  function VectorOut(e: nat, inv: nat): nat
  {
    e * inv % 0x1_0000_0000 / 65536
  }

  lemma {:induction false} SumAtLeast(es: seq<nat>, n: nat, k: nat)
    requires k < n <= |es|
    ensures es[k] <= Sum(es, n)
  {
    if k < n - 1 {
      SumAtLeast(es, n - 1, k);
    }
  }

  lemma {:induction false} SumBound(es: seq<nat>, n: nat)
    requires n <= |es| && forall k :: 0 <= k < |es| ==> es[k] <= 65536
    ensures Sum(es, n) <= 65536 * n
  {
    if n > 0 {
      SumBound(es, n - 1);
    }
  }

  // Facts about products and quotients, each on its own.

  lemma InverseBounds(sum: nat)
    requires sum > 0
    ensures sum * Inverse(sum) <= 0x1_0000_0000 < sum * Inverse(sum) + sum
  {
  }

  lemma ShiftBounds(p: nat)
    ensures 65536 * (p / 65536) <= p < 65536 * (p / 65536) + 65536
  {
  }

  lemma ShiftMonotone(p: nat, q: nat)
    requires p <= q
    ensures p / 65536 <= q / 65536
  {
    ShiftBounds(p);
    ShiftBounds(q);
  }

  function Outs(es: seq<nat>, inv: nat): (r: seq<nat>)
    ensures |r| == |es|
  {
    seq(|es|, k requires 0 <= k < |es| => ScalarOut(es[k], inv))
  }

  /** Rounding each product down loses less than one unit each. */
  lemma {:induction false} OutsSum(es: seq<nat>, inv: nat, n: nat)
    requires n <= |es|
    ensures 65536 * Sum(Outs(es, inv), n) <= Sum(es, n) * inv <= 65536 * Sum(Outs(es, inv), n) + 65536 * n
  {
    if n > 0 {
      OutsSum(es, inv, n - 1);
      ShiftBounds(es[n - 1] * inv);
      Distribute(Sum(es, n - 1), es[n - 1], inv);
    }
  }

  /** The outputs sum to one, in Q16.16, less at most two units for each input. */
  lemma OutputsSumToOne(es: seq<nat>)
    requires (forall k :: 0 <= k < |es| ==> es[k] <= 65536) && Sum(es, |es|) > 0
    ensures 65536 - 2 * |es| <= Sum(Outs(es, Inverse(Sum(es, |es|))), |es|) <= 65536
  {
    var sum := Sum(es, |es|);
    OutsSum(es, Inverse(sum), |es|);
    InverseBounds(sum);
    SumBound(es, |es|);
  }

  /** A larger exponential never gets a smaller output. */
  lemma OutputOrder(e: nat, f: nat, inv: nat)
    requires e <= f
    ensures ScalarOut(e, inv) <= ScalarOut(f, inv)
  {
    MulMonotone(inv, e, f);
    ShiftMonotone(e * inv, f * inv);
  }

  /** The vector path gives what the scalar path does, except for a lane that holds all the mass:
      its product is 2^32, whose low 32 bits are zero. */
  lemma VectorIsScalar(e: nat, sum: nat)
    requires e <= 65536 && 65536 <= sum && e <= sum
    ensures VectorOut(e, Inverse(sum)) == ScalarOut(e, Inverse(sum)) <==> !(e == 65536 && sum == 65536)
    ensures sum == 65536 ==> VectorOut(e, Inverse(sum)) == if e == 65536 then 0 else e
  {
    if sum == 65536 {
      assert Inverse(sum) == 65536;
    } else {
      InverseBelow(sum);
      MulMonotone(Inverse(sum), e, 65536);
    }
  }

  lemma InverseBelow(sum: nat)
    requires sum > 65536
    ensures Inverse(sum) < 65536
  {
    InverseBounds(sum);
    MulMonotone(Inverse(sum), 65537, sum);
  }

  // ----- the wrapping difference -----

  /** Subtracting the maximum wraps in 32 bits: the exponential is that of the true difference
      exactly when the logit is at most 2^31 below the maximum. */
  lemma DifferenceExact(exp: Exp, logit: I32, top: I32)
    requires logit <= top
    ensures Value(exp, V.Wrap(logit as int - top as int)) == Value(exp, logit as int - top as int)
       <==> top as int - logit as int <= 0x8000_0000
  {
  }

  // ----- the kernel -----

  function Exps(exp: Exp, logits: seq<I32>, top: I32): (r: seq<nat>)
    ensures |r| == |logits|
  {
    seq(|logits|, k requires 0 <= k < |logits| => Value(exp, V.Wrap(logits[k] as int - top as int)))
  }

  /** Exponentials of the differences to the largest logit, and their sum. */
  method Exponentials(exp: Exp, logits: seq<I32>, top: I32, probs: array<nat>) returns (sum: nat)
    requires probs.Length == |logits|
    modifies probs
    ensures probs[..] == Exps(exp, logits, top) && sum == Sum(Exps(exp, logits, top), |logits|)
  {
    ghost var es := Exps(exp, logits, top);
    sum := 0;
    for i := 0 to |logits|
      invariant sum == Sum(es, i) && forall k :: 0 <= k < i ==> probs[k] == es[k]
    {
      probs[i] := Value(exp, V.Wrap(logits[i] as int - top as int));
      sum := sum + probs[i];
    }
  }

  /** Full groups of sixteen take the vector path, the rest the scalar one. */
  function Normalised(es: seq<nat>, inv: nat): (r: seq<nat>)
    ensures |r| == |es|
  {
    seq(|es|, k requires 0 <= k < |es| => if k < |es| / 16 * 16 then VectorOut(es[k], inv) else ScalarOut(es[k], inv))
  }

  method Normalise(probs: array<nat>, inv: nat)
    modifies probs
    ensures probs[..] == Normalised(old(probs[..]), inv)
  {
    var n, i := probs.Length, 0;
    ghost var groups := 0;
    while i + 16 <= n
      invariant i <= n && i == groups * 16
      invariant forall k :: 0 <= k < n ==> probs[k] == if k < i then VectorOut(old(probs[k]), inv) else old(probs[k])
    {
      VectorGroup(probs, i, inv);
      i := i + 16;
      groups := groups + 1;
    }
    ghost var full := i;
    FullGroups(n, groups, 16);
    while i < n
      invariant full <= i <= n
      invariant forall k :: 0 <= k < full ==> probs[k] == VectorOut(old(probs[k]), inv)
      invariant forall k :: full <= k < n ==> probs[k] == if k < i then ScalarOut(old(probs[k]), inv) else old(probs[k])
    {
      probs[i] := ScalarOut(probs[i], inv);
      i := i + 1;
    }
  }

  /** One vector turn: sixteen lanes at once. */
  method VectorGroup(probs: array<nat>, i: nat, inv: nat)
    requires i + 16 <= probs.Length
    modifies probs
    ensures forall k :: 0 <= k < probs.Length ==>
        probs[k] == if i <= k < i + 16 then VectorOut(old(probs[k]), inv) else old(probs[k])
  {
    forall k | i <= k < i + 16 {
      probs[k] := VectorOut(probs[k], inv);
    }
  }

  /** `softmax_padic_avx512_kernel`; what it returns is the 64-bit sum cut to 32 bits. */
  method Kernel(exp: Exp, logits: seq<I32>, probs: array<nat>) returns (returned: I32)
    requires probs.Length == |logits|
    modifies probs
    ensures
      var es := Exps(exp, logits, Largest(logits, |logits|));
      var sum := Sum(es, |es|);
      returned == V.Wrap(sum) && probs[..] == if sum > 0 then Normalised(es, Inverse(sum)) else es
  {
    var top := Maximum(logits);
    var sum := Exponentials(exp, logits, top, probs);
    if sum > 0 {
      Normalise(probs, Inverse(sum));
    }
    returned := V.Wrap(sum);
  }

  /** The returned sum is the true one exactly below 2^31, which fewer than 32768 logits ensure. */
  lemma ReturnedSumExact(exp: Exp, logits: seq<I32>)
    requires Sound(exp)
    ensures
      var es := Exps(exp, logits, Largest(logits, |logits|));
      && (V.Wrap(Sum(es, |es|)) == Sum(es, |es|) <==> Sum(es, |es|) < 0x8000_0000)
      && (|logits| < 32768 ==> Sum(es, |es|) < 0x8000_0000)
  {
    var es := Exps(exp, logits, Largest(logits, |logits|));
    WrapExact(Sum(es, |es|));
    if |logits| < 32768 {
      ExpsBounded(exp, logits);
      SumBound(es, |es|);
    }
  }

  lemma WrapExact(x: nat)
    ensures V.Wrap(x) == x <==> x < 0x8000_0000
  {
  }

  /** The largest logit's exponential is one, so the sum is at least that. */
  lemma SumIsPositive(exp: Exp, logits: seq<I32>)
    requires logits != []
    ensures Sum(Exps(exp, logits, Largest(logits, |logits|)), |logits|) >= 65536
  {
    var j := Heaviest(exp, logits);
    SumAtLeast(Exps(exp, logits, Largest(logits, |logits|)), |logits|, j);
  }

  /** When the mass is shared, the vector path agrees with the scalar one everywhere. */
  lemma NormalisedIsScalar(es: seq<nat>)
    requires (forall k :: 0 <= k < |es| ==> es[k] <= 65536) && Sum(es, |es|) > 65536
    ensures Normalised(es, Inverse(Sum(es, |es|))) == Outs(es, Inverse(Sum(es, |es|)))
  {
    var sum := Sum(es, |es|);
    forall k | 0 <= k < |es|
      ensures Normalised(es, Inverse(sum))[k] == Outs(es, Inverse(sum))[k]
    {
      SumAtLeast(es, |es|, k);
      VectorIsScalar(es[k], sum);
    }
  }

  /** No difference to the largest logit wraps. */
  ghost predicate InReach(logits: seq<I32>)
  {
    forall k :: 0 <= k < |logits| ==> Largest(logits, |logits|) as int - logits[k] as int <= 0x8000_0000
  }

  /** So an element's exponential is the right one exactly when its own difference does not wrap. */
  lemma ElementExact(exp: Exp, logits: seq<I32>, k: nat)
    requires k < |logits|
    ensures
      var top := Largest(logits, |logits|);
      var difference := logits[k] as int - top as int;
      Exps(exp, logits, top)[k] == Value(exp, difference) <==> -difference <= 0x8000_0000
  {
    LargestIsMax(logits, |logits|, k);
    DifferenceExact(exp, logits[k], Largest(logits, |logits|));
  }

  lemma ExpsAreExact(exp: Exp, logits: seq<I32>, k: nat)
    requires Sound(exp) && k < |logits| && InReach(logits)
    ensures Exps(exp, logits, Largest(logits, |logits|))[k] ==
        Value(exp, logits[k] as int - Largest(logits, |logits|) as int) <= 65536
  {
    LargestIsMax(logits, |logits|, k);
    ElementExact(exp, logits, k);
  }

  /** Wrapped or not, no exponential exceeds one. */
  lemma ExpsBounded(exp: Exp, logits: seq<I32>)
    requires Sound(exp)
    ensures
      var es := Exps(exp, logits, Largest(logits, |logits|));
      forall k :: 0 <= k < |es| ==> es[k] <= 65536
  {
  }

  /** Whether outputs sum to one, in Q16.16, within two units for each. */
  predicate SumsToOne(out: seq<nat>)
  {
    65536 - 2 * |out| <= Sum(out, |out|) <= 65536
  }

  /** The outputs sum to one within two units for each input when the mass is shared, even if
      differences wrap. */
  lemma KernelSumsToOne(exp: Exp, logits: seq<I32>)
    requires Sound(exp)
    requires var es := Exps(exp, logits, Largest(logits, |logits|)); Sum(es, |es|) > 65536
    ensures
      var es := Exps(exp, logits, Largest(logits, |logits|));
      SumsToOne(Normalised(es, Inverse(Sum(es, |es|))))
  {
    var es := Exps(exp, logits, Largest(logits, |logits|));
    ExpsBounded(exp, logits);
    NormalisedIsScalar(es);
    OutputsSumToOne(es);
  }

  /** An element with all the mass lies in the scalar tail. */
  predicate MassInTail(es: seq<nat>)
  {
    exists k :: |es| / 16 * 16 <= k < |es| && es[k] == 65536
  }

  /** When all the mass is in one element, every other is 0, and its own output is 65536 in the
      scalar tail and 0 in a vector lane. */
  lemma AllMass(es: seq<nat>, j: nat)
    requires j < |es| && es[j] == 65536 && Sum(es, |es|) == 65536
    ensures forall k :: 0 <= k < |es| && k != j ==> es[k] == 0
    ensures
      forall k :: 0 <= k < |es| ==>
        Normalised(es, Inverse(65536))[k] == if k == j && k >= |es| / 16 * 16 then 65536 else 0
  {
    forall k | 0 <= k < |es| && k != j
      ensures es[k] == 0
    {
      SumAtLeastTwo(es, |es|, j, k);
    }
    assert Inverse(65536) == 65536;
  }

  lemma {:induction false} SumAtLeastTwo(es: seq<nat>, n: nat, j: nat, k: nat)
    requires j < n <= |es| && k < n && j != k
    ensures es[j] + es[k] <= Sum(es, n)
  {
    if j == n - 1 {
      SumAtLeast(es, n - 1, k);
    } else if k == n - 1 {
      SumAtLeast(es, n - 1, j);
    } else {
      SumAtLeastTwo(es, n - 1, j, k);
    }
  }

  lemma {:induction false} SumOfOne(out: seq<nat>, n: nat, j: nat, x: nat)
    requires n <= |out| && forall k :: 0 <= k < n ==> out[k] == if k == j then x else 0
    ensures Sum(out, n) == if j < n then x else 0
  {
    if n > 0 {
      SumOfOne(out, n - 1, j, x);
    }
  }

  /** The outputs sum to one exactly when the mass is shared, or all of it is in the scalar tail,
      or so many outputs are summed that none at all would do. */
  lemma KernelSumExact(exp: Exp, logits: seq<I32>)
    requires Sound(exp) && logits != []
    ensures
      var es := Exps(exp, logits, Largest(logits, |logits|));
      Sum(es, |es|) > 0 &&
      (SumsToOne(Normalised(es, Inverse(Sum(es, |es|)))) <==>
         |logits| >= 32768 || Sum(es, |es|) > 65536 || MassInTail(es))
  {
    var top := Largest(logits, |logits|);
    var es := Exps(exp, logits, top);
    SumIsPositive(exp, logits);
    if Sum(es, |es|) > 65536 {
      KernelSumsToOne(exp, logits);
    } else {
      var j := Heaviest(exp, logits);
      AllMass(es, j);
      var out := Normalised(es, Inverse(65536));
      SumOfOne(out, |out|, j, out[j]);
    }
  }

  /** The largest logit, whose exponential is one. */
  lemma Heaviest(exp: Exp, logits: seq<I32>) returns (j: nat)
    requires logits != []
    ensures j < |logits| && Exps(exp, logits, Largest(logits, |logits|))[j] == 65536
  {
    LargestIsMax(logits, |logits|, 0);
    j :| 0 <= j < |logits| && logits[j] == Largest(logits, |logits|);
    assert V.Wrap(0) == 0;
  }

  /** And, when no difference wraps, a larger logit never gets a smaller output, shared mass or
      not. */
  lemma KernelKeepsOrder(exp: Exp, logits: seq<I32>, i: nat, j: nat)
    requires Sound(exp) && InReach(logits) && i < |logits| && j < |logits| && logits[i] <= logits[j]
    ensures
      var es := Exps(exp, logits, Largest(logits, |logits|));
      Sum(es, |es|) > 0 &&
      (var out := Normalised(es, Inverse(Sum(es, |es|))); out[i] <= out[j])
  {
    var top := Largest(logits, |logits|);
    var es := Exps(exp, logits, top);
    SumIsPositive(exp, logits);
    ExpsAreExact(exp, logits, i);
    ExpsAreExact(exp, logits, j);
    ValueBounds(exp, logits[i] as int - top as int, logits[j] as int - top as int);
    if Sum(es, |es|) > 65536 {
      ExpsBounded(exp, logits);
      NormalisedIsScalar(es);
      OutputOrder(es[i], es[j], Inverse(Sum(es, |es|)));
    } else {
      var k := Heaviest(exp, logits);
      AllMass(es, k);
    }
  }

  // ----- the fallback -----

  /** The fallback shifts by 32 instead of 16: an output is 1 for an element with all the mass,
      and 0 for every other. */
  lemma FallbackIsOneHot(e: nat, sum: nat)
    requires e <= 65536 <= sum && e <= sum
    ensures e * Inverse(sum) / 0x1_0000_0000 == if e == sum then 1 else 0
  {
    if e == sum {
      assert sum == 65536 && Inverse(65536) == 65536;
    } else {
      ProductBelow(e, sum);
      SmallQuotient(e * Inverse(sum));
    }
  }

  lemma SmallQuotient(p: nat)
    requires p < 0x1_0000_0000
    ensures p / 0x1_0000_0000 == 0
  {
  }

  lemma ProductBelow(e: nat, sum: nat)
    requires e < sum
    ensures e * Inverse(sum) < 0x1_0000_0000
  {
    InverseBounds(sum);
    if Inverse(sum) > 0 {
      MulMonotone(Inverse(sum), e + 1, sum);
      Distribute(e, 1, Inverse(sum));
    }
  }
}
