// The int8 dot product on unsigned-by-signed multiply-add lanes, with its bias correction.
module Vnni {
  import opened Common

  type I8 = x: int | -128 <= x < 128
  type I32 = x: int | -0x8000_0000 <= x < 0x8000_0000

  predicate Apart(a: int, b: int, q: int)
  {
    a - b == q * 0x1_0000_0000
  }

  /** Equal modulo 2^32. */
  ghost predicate Same(a: int, b: int)
  {
    exists q :: Apart(a, b, q)
  }

  /** 32-bit wrap-around. */
  function Wrap(x: int): (r: I32)
  {
    var m := x % 0x1_0000_0000;
    if m < 0x8000_0000 then m else m - 0x1_0000_0000
  }

  lemma WrapSame(x: int)
    ensures Same(Wrap(x), x)
  {
    var q := x / 0x1_0000_0000;
    assert Apart(Wrap(x), x, if x % 0x1_0000_0000 < 0x8000_0000 then -q else -q - 1);
  }

  lemma SameSum(a: int, b: int, c: int, d: int)
    requires Same(a, b) && Same(c, d)
    ensures Same(a + c, b + d) && Same(a - c, b - d)
  {
    var q :| Apart(a, b, q);
    var r :| Apart(c, d, r);
    assert Apart(a + c, b + d, q + r) && Apart(a - c, b - d, q - r);
  }

  lemma SameSelf(a: int)
    ensures Same(a, a)
  {
    assert Apart(a, a, 0);
  }

  lemma SameTransitive(a: int, b: int, c: int)
    requires Same(a, b) && Same(b, c)
    ensures Same(a, c)
  {
    var q :| Apart(a, b, q);
    var r :| Apart(b, c, r);
    assert Apart(a, c, q + r);
  }

  lemma SameTimes128(a: int, b: int)
    requires Same(a, b)
    ensures Same(128 * a, 128 * b)
  {
    var q :| Apart(a, b, q);
    assert Apart(128 * a, 128 * b, 128 * q);
  }

  /** A signed 32-bit number is what any number of its class wraps to. */
  lemma WrapIsUnique(r: I32, x: int)
    requires Same(r, x)
    ensures r == Wrap(x)
  {
    WrapSame(x);
    var p :| Apart(r, x, p);
    var q :| Apart(Wrap(x), x, q);
    assert Apart(r, Wrap(x), p - q);
  }

  lemma WrapInRange(x: int)
    ensures Wrap(x) == x <==> -0x8000_0000 <= x < 0x8000_0000
  {
  }

  // ----- exact sums -----

  function Dot(w: seq<I8>, a: seq<I8>, from: nat, to: nat): int
    requires from <= to <= |w| == |a|
  {
    if from == to then 0 else Dot(w, a, from, to - 1) + w[to - 1] as int * a[to - 1] as int
  }

  /** The dot product is linear in the activations ... */
  lemma {:induction false} DotAdds(w: seq<I8>, a: seq<I8>, b: seq<I8>, c: seq<I8>, from: nat, to: nat)
    requires from <= to <= |w| == |a| == |b| == |c|
    requires forall i :: from <= i < to ==> c[i] as int == a[i] as int + b[i] as int
    ensures Dot(w, c, from, to) == Dot(w, a, from, to) + Dot(w, b, from, to)
  {
    if from < to {
      DotAdds(w, a, b, c, from, to - 1);
      Distributes(w[to - 1] as int, a[to - 1] as int, b[to - 1] as int);
    }
  }

  lemma Distributes(w: int, a: int, b: int)
    ensures w * (a + b) == w * a + w * b
  {
  }

  /** ... and where a single one is not zero, it is that one's product. */
  lemma {:induction false} DotOfOne(w: seq<I8>, a: seq<I8>, from: nat, to: nat, j: nat)
    requires from <= to <= |w| == |a| && forall i :: from <= i < to && i != j ==> a[i] == 0
    ensures Dot(w, a, from, to) == if from <= j < to then w[j] as int * a[j] as int else 0
  {
    if from < to {
      DotOfOne(w, a, from, to - 1, j);
    }
  }

  function Signed(x: bv8): int
  {
    if x < 0x80 then x as int else x as int - 256
  }

  /** Flipping the sign bit of a signed byte, read as unsigned, adds 128. */
  lemma SignFlip(x: bv8)
    ensures (x ^ 0x80) as int == Signed(x) + 128
  {
    if x < 0x80 {
      assert x ^ 0x80 == x + 0x80;
    } else {
      assert x ^ 0x80 == x - 0x80;
    }
  }

  /** The same with every weight moved up by 128, as the sign-bit flip does. */
  function BiasedDot(w: seq<I8>, a: seq<I8>, from: nat, to: nat): int
    requires from <= to <= |w| == |a|
  {
    if from == to then 0 else BiasedDot(w, a, from, to - 1) + (w[to - 1] as int + 128) * a[to - 1] as int
  }

  function Sum(a: seq<I8>, from: nat, to: nat): int
    requires from <= to <= |a|
  {
    if from == to then 0 else Sum(a, from, to - 1) + a[to - 1]
  }

  lemma {:induction false} BiasIs(w: seq<I8>, a: seq<I8>, from: nat, to: nat)
    requires from <= to <= |w| == |a|
    ensures BiasedDot(w, a, from, to) == Dot(w, a, from, to) + 128 * Sum(a, from, to)
  {
    if from < to {
      BiasIs(w, a, from, to - 1);
    }
  }

  lemma {:induction false} SumsJoin(w: seq<I8>, a: seq<I8>, from: nat, mid: nat, to: nat)
    requires from <= mid <= to <= |w| == |a|
    ensures BiasedDot(w, a, from, to) == BiasedDot(w, a, from, mid) + BiasedDot(w, a, mid, to)
    ensures Sum(a, from, to) == Sum(a, from, mid) + Sum(a, mid, to)
    ensures Dot(w, a, from, to) == Dot(w, a, from, mid) + Dot(w, a, mid, to)
  {
    if mid < to {
      SumsJoin(w, a, from, mid, to - 1);
    }
  }

  // ----- lanes -----

  type Lanes = s: seq<I32> | |s| == 16 witness seq(16, _ => 0)

  /** The sum of the first n lanes. */
  function LaneSum(s: seq<int>, n: nat): int
    requires n <= |s|
  {
    if n == 0 then 0 else LaneSum(s, n - 1) + s[n - 1]
  }

  /** `dpbusd`: each lane adds four unsigned-by-signed products, wrapping; here with the flipped
      weights of the 64 bytes at i. */
  function AddBiased(acc: Lanes, w: seq<I8>, a: seq<I8>, i: nat): Lanes
    requires i + 64 <= |w| == |a|
  {
    seq(16, l requires 0 <= l < 16 => Wrap(acc[l] + BiasedDot(w, a, i + 4 * l, i + 4 * l + 4)))
  }

  /** The same instruction with weights 1. */
  function AddOnes(acc: Lanes, a: seq<I8>, i: nat): Lanes
    requires i + 64 <= |a|
  {
    seq(16, l requires 0 <= l < 16 => Wrap(acc[l] + Sum(a, i + 4 * l, i + 4 * l + 4)))
  }

  lemma {:induction false} LanesAdd(before: seq<int>, after: seq<int>, adds: seq<int>, n: nat)
    requires n <= |before| == |after| == |adds| && forall l :: 0 <= l < |before| ==> Same(after[l], before[l] + adds[l])
    ensures Same(LaneSum(after, n), LaneSum(before, n) + LaneSum(adds, n))
  {
    if n == 0 {
      SameSelf(0);
    } else {
      LanesAdd(before, after, adds, n - 1);
      SameSum(LaneSum(after, n - 1), LaneSum(before, n - 1) + LaneSum(adds, n - 1), after[n - 1],
              before[n - 1] + adds[n - 1]);
    }
  }

  lemma {:induction false} BiasedLanes(w: seq<I8>, a: seq<I8>, i: nat, adds: seq<int>, n: nat)
    requires n <= 16 == |adds| && i + 64 <= |w| == |a|
    requires forall l :: 0 <= l < 16 ==> adds[l] == BiasedDot(w, a, i + 4 * l, i + 4 * l + 4)
    ensures LaneSum(adds, n) == BiasedDot(w, a, i, i + 4 * n)
  {
    if n > 0 {
      BiasedLanes(w, a, i, adds, n - 1);
      SumsJoin(w, a, i, i + 4 * (n - 1), i + 4 * n);
    }
  }

  lemma {:induction false} OnesLanes(a: seq<I8>, i: nat, adds: seq<int>, n: nat)
    requires n <= 16 == |adds| && i + 64 <= |a|
    requires forall l :: 0 <= l < 16 ==> adds[l] == Sum(a, i + 4 * l, i + 4 * l + 4)
    ensures LaneSum(adds, n) == Sum(a, i, i + 4 * n)
  {
    if n > 0 {
      OnesLanes(a, i, adds, n - 1);
      SumsJoin(a, a, i, i + 4 * (n - 1), i + 4 * n);
    }
  }

  /** Two totals that agree modulo 2^32 still do after adding the same number. */
  lemma SameMovesOn(after: int, before: int, add: int, was: int, now: int)
    requires Same(after, before + add) && Same(before, was) && now == was + add
    ensures Same(after, now)
  {
    SameSelf(add);
    SameSum(before, was, add, add);
    SameTransitive(after, before + add, now);
  }

  lemma BiasedLane(acc: Lanes, w: seq<I8>, a: seq<I8>, i: nat, l: nat)
    requires i + 64 <= |w| == |a| && l < 16
    ensures Same(AddBiased(acc, w, a, i)[l], acc[l] as int + BiasedDot(w, a, i + 4 * l, i + 4 * l + 4))
  {
    WrapSame(acc[l] as int + BiasedDot(w, a, i + 4 * l, i + 4 * l + 4));
  }

  /** One turn of the loop: the accumulators' totals move on by 64 bytes, modulo 2^32. */
  lemma BiasedTurn(acc: Lanes, w: seq<I8>, a: seq<I8>, i: nat)
    requires i + 64 <= |w| == |a| && Same(LaneSum(acc, 16), BiasedDot(w, a, 0, i))
    ensures Same(LaneSum(AddBiased(acc, w, a, i), 16), BiasedDot(w, a, 0, i + 64))
  {
    var adds := seq(16, l requires 0 <= l < 16 => BiasedDot(w, a, i + 4 * l, i + 4 * l + 4));
    forall l | 0 <= l < 16
      ensures Same(AddBiased(acc, w, a, i)[l], acc[l] as int + adds[l])
    {
      BiasedLane(acc, w, a, i, l);
    }
    LanesAdd(acc, AddBiased(acc, w, a, i), adds, 16);
    BiasedLanes(w, a, i, adds, 16);
    SumsJoin(w, a, 0, i, i + 64);
    SameMovesOn(LaneSum(AddBiased(acc, w, a, i), 16), LaneSum(acc, 16), LaneSum(adds, 16), BiasedDot(w, a, 0, i),
                BiasedDot(w, a, 0, i + 64));
  }

  lemma OnesLane(sums: Lanes, a: seq<I8>, i: nat, l: nat)
    requires i + 64 <= |a| && l < 16
    ensures Same(AddOnes(sums, a, i)[l], sums[l] as int + Sum(a, i + 4 * l, i + 4 * l + 4))
  {
    WrapSame(sums[l] as int + Sum(a, i + 4 * l, i + 4 * l + 4));
  }

  lemma OnesTurn(sums: Lanes, a: seq<I8>, i: nat)
    requires i + 64 <= |a| && Same(LaneSum(sums, 16), Sum(a, 0, i))
    ensures Same(LaneSum(AddOnes(sums, a, i), 16), Sum(a, 0, i + 64))
  {
    var adds := seq(16, l requires 0 <= l < 16 => Sum(a, i + 4 * l, i + 4 * l + 4));
    forall l | 0 <= l < 16
      ensures Same(AddOnes(sums, a, i)[l], sums[l] as int + adds[l])
    {
      OnesLane(sums, a, i, l);
    }
    LanesAdd(sums, AddOnes(sums, a, i), adds, 16);
    OnesLanes(a, i, adds, 16);
    SumsJoin(a, a, 0, i, i + 64);
    SameMovesOn(LaneSum(AddOnes(sums, a, i), 16), LaneSum(sums, 16), LaneSum(adds, 16), Sum(a, 0, i),
                Sum(a, 0, i + 64));
  }

  /** Shift the activation sums left by 7 and subtract, lane by lane. */
  function Corrected(acc: Lanes, sums: Lanes): Lanes
  {
    seq(16, l requires 0 <= l < 16 => Wrap(acc[l] as int - Wrap(128 * sums[l] as int) as int))
  }

  lemma CorrectedTotal(acc: Lanes, sums: Lanes)
    ensures Same(LaneSum(Corrected(acc, sums), 16), LaneSum(acc, 16) - 128 * LaneSum(sums, 16))
  {
    var shift := seq(16, l requires 0 <= l < 16 => -128 * sums[l] as int);
    forall l | 0 <= l < 16
      ensures Same(Corrected(acc, sums)[l], acc[l] as int + shift[l])
    {
      var s := 128 * sums[l] as int;
      SameSelf(acc[l]);
      WrapSame(s);
      WrapSame(acc[l] as int - Wrap(s) as int);
      SameSum(acc[l], acc[l], Wrap(s), s);
      SameTransitive(Corrected(acc, sums)[l], acc[l] as int - Wrap(s) as int, acc[l] as int + shift[l]);
    }
    LanesAdd(acc, Corrected(acc, sums), shift, 16);
    Shifted(sums, shift, 16);
  }

  lemma {:induction false} Shifted(sums: Lanes, shift: seq<int>, n: nat)
    requires n <= 16 == |shift| && forall l :: 0 <= l < 16 ==> shift[l] == -128 * sums[l] as int
    ensures LaneSum(shift, n) == -128 * LaneSum(sums, n)
  {
    if n > 0 {
      Shifted(sums, shift, n - 1);
    }
  }

  /** Halve the number of lanes by adding the upper half to the lower, wrapping. */
  function Halved(s: seq<I32>, h: nat): (r: seq<I32>)
    requires |s| == 2 * h
    ensures |r| == h
  {
    seq(h, l requires 0 <= l < h => Wrap(s[l] as int + s[l + h] as int))
  }

  lemma HalvedTotal(s: seq<I32>, h: nat)
    requires |s| == 2 * h
    ensures Same(LaneSum(Halved(s, h), h), LaneSum(s, 2 * h))
  {
    var low, high := seq(h, l requires 0 <= l < h => s[l] as int), seq(h, l requires 0 <= l < h => s[l + h] as int);
    forall l | 0 <= l < h
      ensures Same(Halved(s, h)[l], low[l] + high[l])
    {
      WrapSame(s[l] as int + s[l + h] as int);
    }
    LanesAdd(low, Halved(s, h), high, h);
    SplitSum(s, low, high, h, h);
  }

  lemma {:induction false} SplitSum(s: seq<int>, low: seq<int>, high: seq<int>, h: nat, n: nat)
    requires |low| == |high| == h && |s| == 2 * h && n <= h
    requires forall l :: 0 <= l < h ==> low[l] == s[l] && high[l] == s[l + h]
    ensures LaneSum(s, n) == LaneSum(low, n) && LaneSum(s, h + n) == LaneSum(s, h) + LaneSum(high, n)
  {
    if n > 0 {
      SplitSum(s, low, high, h, n - 1);
    }
  }

  /** The horizontal reduction, 16 lanes to 8, 4, 2 and 1. */
  function Reduced(s: Lanes): I32
  {
    Halved(Halved(Halved(Halved(s, 8), 4), 2), 1)[0]
  }

  lemma ReducedTotal(s: Lanes)
    ensures Same(Reduced(s), LaneSum(s, 16))
  {
    var s8 := Halved(s, 8);
    var s4 := Halved(s8, 4);
    var s2 := Halved(s4, 2);
    var s1 := Halved(s2, 1);
    HalvedTotal(s, 8);
    HalvedTotal(s8, 4);
    HalvedTotal(s4, 2);
    HalvedTotal(s2, 1);
    assert LaneSum(s1, 1) == s1[0] as int;
    SameTransitive(LaneSum(s4, 4), LaneSum(s8, 8), LaneSum(s, 16));
    SameTransitive(LaneSum(s2, 2), LaneSum(s4, 4), LaneSum(s, 16));
    SameTransitive(LaneSum(s1, 1), LaneSum(s2, 2), LaneSum(s, 16));
  }

  // ----- the kernel -----

  /** The f32 operations the kernel ends with, uninterpreted. */
  datatype Floats<!F> = Floats(ofInt: int -> F, add: (F, F) -> F, mul: (F, F) -> F)

  /** The products from..to - 1, converted and added one by one. */
  function Residue<F>(fl: Floats<F>, w: seq<I8>, a: seq<I8>, from: nat, to: nat, start: F): F
    requires |w| == |a| && to <= |w|
  {
    if to <= from then start
    else fl.add(Residue(fl, w, a, from, to - 1, start), fl.ofInt(w[to - 1] as int * a[to - 1] as int))
  }

  /** The vector loop and the reduction: whatever the lanes wrap, the exact dot product of all full
      groups of 64, wrapped once. */
  method VectorPart(w: seq<I8>, a: seq<I8>) returns (dot: I32)
    requires |w| == |a|
    ensures dot == Wrap(Dot(w, a, 0, |w| / 64 * 64))
  {
    var acc: Lanes, sums: Lanes, i := seq(16, _ => 0), seq(16, _ => 0), 0;
    ghost var groups := 0;
    ZeroSum(acc, 16);
    SameSelf(0);
    while i + 64 <= |w|
      invariant i <= |w| && i == groups * 64
      invariant Same(LaneSum(acc, 16), BiasedDot(w, a, 0, i)) && Same(LaneSum(sums, 16), Sum(a, 0, i))
    {
      BiasedTurn(acc, w, a, i);
      OnesTurn(sums, a, i);
      acc, sums, i := AddBiased(acc, w, a, i), AddOnes(sums, a, i), i + 64;
      groups := groups + 1;
    }
    FullGroups(|w|, groups, 64);
    ReducedIsDot(acc, sums, w, a, i);
    dot := Reduced(Corrected(acc, sums));
  }

  /** `gemv_q8_vnni_avx512`: the vector part is converted, the remaining products are converted
      and added in order, and the result is scaled. */
  method DotVnni<F>(fl: Floats<F>, w: seq<I8>, a: seq<I8>, scale: F) returns (r: F)
    requires |w| == |a|
    ensures
      var k := |w| / 64 * 64;
      r == fl.mul(Residue(fl, w, a, k, |w|, fl.ofInt(Wrap(Dot(w, a, 0, k)) as int)), scale)
  {
    var vector := VectorPart(w, a);
    var k := |w| / 64 * 64;
    var start := fl.ofInt(vector as int);
    var dot := start;
    for i := k to |w|
      invariant dot == Residue(fl, w, a, k, i, start)
    {
      dot := fl.add(dot, fl.ofInt(w[i] as int * a[i] as int));
    }
    r := fl.mul(dot, scale);
  }

  lemma {:induction false} ZeroSum(s: Lanes, n: nat)
    requires n <= 16 && forall l :: 0 <= l < 16 ==> s[l] == 0
    ensures LaneSum(s, n) == 0
  {
    if n > 0 {
      ZeroSum(s, n - 1);
    }
  }

  lemma ReducedIsDot(acc: Lanes, sums: Lanes, w: seq<I8>, a: seq<I8>, k: nat)
    requires k <= |w| == |a| && Same(LaneSum(acc, 16), BiasedDot(w, a, 0, k)) && Same(LaneSum(sums, 16), Sum(a, 0, k))
    ensures Reduced(Corrected(acc, sums)) == Wrap(Dot(w, a, 0, k))
  {
    ReducedTotal(Corrected(acc, sums));
    CorrectedTotal(acc, sums);
    BiasIs(w, a, 0, k);
    BiasRemoved(Reduced(Corrected(acc, sums)), LaneSum(Corrected(acc, sums), 16), LaneSum(acc, 16), LaneSum(sums, 16),
                BiasedDot(w, a, 0, k), Sum(a, 0, k), Dot(w, a, 0, k));
  }

  lemma BiasRemoved(r: I32, total: int, acc: int, sums: int, biased: int, ones: int, dot: int)
    requires Same(r, total) && Same(total, acc - 128 * sums) && Same(acc, biased) && Same(sums, ones)
    requires biased == dot + 128 * ones
    ensures r == Wrap(dot)
  {
    SameTimes128(sums, ones);
    SameSum(acc, biased, 128 * sums, 128 * ones);
    SameTransitive(r, total, acc - 128 * sums);
    SameTransitive(r, acc - 128 * sums, dot);
    WrapIsUnique(r, dot);
  }

  // ----- when the result is exact -----

  lemma {:induction false} DotBound(w: seq<I8>, a: seq<I8>, from: nat, to: nat)
    requires from <= to <= |w| == |a|
    ensures -16384 * (to - from) <= Dot(w, a, from, to) <= 16384 * (to - from)
  {
    if from < to {
      DotBound(w, a, from, to - 1);
      ProductBound(w[to - 1], a[to - 1]);
    }
  }

  lemma ProductBound(x: I8, y: I8)
    ensures -16384 <= x as int * y as int <= 16384
  {
    var p, q := x as int, y as int;
    var m := if q < 0 then -q else q;
    NonNegative(128 - p, m);
    NonNegative(128 + p, m);
    assert -128 * m <= p * m <= 128 * m;
  }

  lemma NonNegative(a: nat, b: nat)
    ensures a * b >= 0
  {
  }

  lemma {:induction false} DotOfLeast(w: seq<I8>, k: nat)
    requires k <= |w| && forall i :: 0 <= i < |w| ==> w[i] == -128
    ensures Dot(w, w, 0, k) == 16384 * k
  {
    if k > 0 {
      DotOfLeast(w, k - 1);
    }
  }

  /** The vector part of length k is exact for all inputs exactly below 131072. */
  lemma ExactBelow(k: nat)
    ensures (forall w: seq<I8>, a: seq<I8> :: |w| == |a| == k ==> Wrap(Dot(w, a, 0, k)) as int == Dot(w, a, 0, k))
       <==> k < 131072
  {
    if k < 131072 {
      forall w: seq<I8>, a: seq<I8> | |w| == |a| == k
        ensures Wrap(Dot(w, a, 0, k)) as int == Dot(w, a, 0, k)
      {
        DotBound(w, a, 0, k);
        WrapInRange(Dot(w, a, 0, k));
      }
    } else {
      var w: seq<I8> := seq(k, _ => -128);
      DotOfLeast(w, k);
      WrapInRange(Dot(w, w, 0, k));
    }
  }

  /** Adding a product to the converted dot product of the first m is converting that of m + 1:
      true in f32 while these integers are small enough to be exact. */
  ghost predicate AddsExactly<F>(fl: Floats<F>, w: seq<I8>, a: seq<I8>, m: nat)
    requires |w| == |a| && m < |w|
  {
    fl.add(fl.ofInt(Dot(w, a, 0, m)), fl.ofInt(w[m] as int * a[m] as int)) == fl.ofInt(Dot(w, a, 0, m + 1))
  }

  lemma {:induction false} ResidueIsDot<F>(fl: Floats<F>, w: seq<I8>, a: seq<I8>, k: nat, n: nat)
    requires |w| == |a| && k <= n <= |w| && forall m :: k <= m < n ==> AddsExactly(fl, w, a, m)
    ensures Residue(fl, w, a, k, n, fl.ofInt(Dot(w, a, 0, k))) == fl.ofInt(Dot(w, a, 0, n))
    decreases n
  {
    if n > k {
      ResidueIsDot(fl, w, a, k, n - 1);
      assert AddsExactly(fl, w, a, n - 1);
    }
  }

  /** So for vectors whose vector part is shorter than 131072 the kernel gives what the scalar
      path does, the scaled exact dot product: always when the length is a multiple of 64, and
      otherwise when the remaining additions are exact. */
  lemma KernelExact<F>(fl: Floats<F>, w: seq<I8>, a: seq<I8>, scale: F)
    requires |w| == |a| && |w| / 64 * 64 < 131072
    requires forall m :: |w| / 64 * 64 <= m < |w| ==> AddsExactly(fl, w, a, m)
    ensures
      var k := |w| / 64 * 64;
      fl.mul(Residue(fl, w, a, k, |w|, fl.ofInt(Wrap(Dot(w, a, 0, k)) as int)), scale)
        == fl.mul(fl.ofInt(Dot(w, a, 0, |w|)), scale)
  {
    var k := |w| / 64 * 64;
    DotBound(w, a, 0, k);
    WrapInRange(Dot(w, a, 0, k));
    ResidueIsDot(fl, w, a, k, |w|);
  }
}
