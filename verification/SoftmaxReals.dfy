// How near the fixed-point softmax comes to the softmax over the reals.
module SoftmaxReals {
  import opened Common
  import opened Softmax

  function Abs(x: real): (r: real)
    ensures r >= 0.0 && (r == x || r == -x)
  {
    if x < 0.0 then -x else x
  }

  /** The true exponential of a Q16.16 number, in units of 2^-16: monotone, one at 0, and at most 3
      units where the kernel takes it to be 0. The float exponential is within a unit of it. */
  ghost predicate Approximates(exp: Exp, e: int -> real)
  {
    && e(0) == 65536.0 && e(-655361) <= 3.0
    && (forall x :: e(x) > 0.0)
    && (forall x, y :: x <= y ==> e(x) <= e(y))
    && (forall x :: -655360 <= x < 0 ==> Abs(exp.middle(x) as real - e(x)) <= 1.0)
  }

  /** Over all numbers up to 0 the kernel's exponential is within 3 units of the true one. */
  lemma ValueIsNear(exp: Exp, e: int -> real, x: int)
    requires Approximates(exp, e) && x <= 0
    ensures Abs(Value(exp, x) as real - e(x)) <= 3.0
  {
    if x < -655360 {
      assert 0.0 < e(x) <= e(-655361);
    }
  }

  /** The sum of the true exponentials of the first n differences to the largest logit. */
  function TrueSum(e: int -> real, logits: seq<I32>, top: I32, n: nat): real
    requires n <= |logits|
  {
    if n == 0 then 0.0 else TrueSum(e, logits, top, n - 1) + e(logits[n - 1] as int - top as int)
  }

  lemma TermIsNear(exp: Exp, e: int -> real, logits: seq<I32>, k: nat)
    requires Sound(exp) && Approximates(exp, e) && InReach(logits) && k < |logits|
    ensures
      var top := Largest(logits, |logits|);
      && logits[k] <= top
      && Abs(Exps(exp, logits, top)[k] as real - e(logits[k] as int - top as int)) <= 3.0
  {
    hide *;
    LargestIsMax(logits, |logits|, k);
    ExpsAreExact(exp, logits, k);
    ValueIsNear(exp, e, logits[k] as int - Largest(logits, |logits|) as int);
  }

  lemma {:induction false} NearTermsSum(e: int -> real, logits: seq<I32>, top: I32, es: seq<nat>, n: nat)
    requires n <= |logits| == |es|
    requires forall k :: 0 <= k < |es| ==> Abs(es[k] as real - e(logits[k] as int - top as int)) <= 3.0
    ensures Abs(Sum(es, n) as real - TrueSum(e, logits, top, n)) <= 3.0 * n as real
  {
    if n > 0 {
      NearTermsSum(e, logits, top, es, n - 1);
      assert Abs(es[n - 1] as real - e(logits[n - 1] as int - top as int)) <= 3.0;
    }
  }

  lemma SumIsNear(exp: Exp, e: int -> real, logits: seq<I32>)
    requires Sound(exp) && Approximates(exp, e) && InReach(logits)
    ensures
      var top := Largest(logits, |logits|);
      Abs(Sum(Exps(exp, logits, top), |logits|) as real - TrueSum(e, logits, top, |logits|)) <= 3.0 * |logits| as real
  {
    hide *;
    var top := Largest(logits, |logits|);
    var es := Exps(exp, logits, top);
    forall k | 0 <= k < |es|
      ensures Abs(es[k] as real - e(logits[k] as int - top as int)) <= 3.0
    {
      TermIsNear(exp, e, logits, k);
    }
    NearTermsSum(e, logits, top, es, |logits|);
  }

  lemma {:induction false} TermOfSum(exp: Exp, e: int -> real, logits: seq<I32>, top: I32, n: nat, k: nat)
    requires n <= |logits| && Approximates(exp, e)
    ensures k < n ==> e(logits[k] as int - top as int) > 0.0
    ensures TrueSum(e, logits, top, n) >= 0.0
    ensures k < n ==> e(logits[k] as int - top as int) <= TrueSum(e, logits, top, n)
  {
    if n > 0 {
      TermOfSum(exp, e, logits, top, n - 1, k);
    }
  }

  /** An output is its exponential's share of the sum, less at most two units. */
  lemma OutIsShare(e: nat, sum: nat)
    requires 0 < sum && e <= 65536
    ensures 65536 * e - 2 * sum <= ScalarOut(e, Inverse(sum)) * sum <= 65536 * e
  {
    var inv, out := Inverse(sum), ScalarOut(e, Inverse(sum));
    InverseBounds(sum);
    ShiftBounds(e * inv);
    MulMonotone(sum, 65536 * out, e * inv);
    MulMonotone(sum, e * inv, 65536 * out + 65536);
    MulMonotone(e, sum * inv, 0x1_0000_0000);
    MulMonotone(e, 0x1_0000_0000 - sum, sum * inv);
    Commute(e, inv, sum);
    MulMonotone(sum, e, 65536);
    assert e * (0x1_0000_0000 - sum) == 0x1_0000_0000 * e - sum * e;
    assert sum * (65536 * out) == 65536 * (out * sum);
    assert sum * (65536 * out + 65536) == 65536 * (out * sum) + 65536 * sum;
  }

  lemma Commute(e: nat, inv: nat, sum: nat)
    ensures e * (sum * inv) == sum * (e * inv)
  {
  }

  lemma MulReal(k: real, a: real, b: real)
    requires k >= 0.0 && a <= b
    ensures k * a <= k * b
  {
    assert k * (b - a) >= 0.0;
  }

  lemma MulStrict(k: real, a: real, b: real)
    requires k > 0.0 && a > b
    ensures k * a > k * b
  {
    assert k * (a - b) > 0.0;
  }

  lemma CancelReal(k: real, a: real, b: real)
    requires k > 0.0 && k * a <= k * b
    ensures a <= b
  {
    if a > b {
      MulStrict(k, a, b);
    }
  }

  /** Numbers near others have nearly their ratio. */
  lemma CrossIsNear(a: real, b: real, s: real, t: real, m: real, c: real)
    requires 0.0 < b <= t && Abs(a - b) <= m && Abs(s - t) <= c
    ensures -(m * t + c * t) <= a * t - b * s <= m * t + c * t
  {
    var x, y := a - b, t - s;
    var p, q := t * x, b * y;
    assert a * t - b * s == p + q by {
      Cross(a, b, s, t);
    }
    assert -(m * t) <= p <= m * t by {
      BoundedBy(t, t, x, m);
    }
    assert -(c * t) <= q <= c * t by {
      BoundedBy(b, t, y, c);
    }
  }

  lemma BoundedBy(b: real, t: real, x: real, c: real)
    requires 0.0 < b <= t && -c <= x <= c
    ensures -(c * t) <= b * x <= c * t
  {
    assert b * (c - x) >= 0.0 && b * (c + x) >= 0.0 && c * (t - b) >= 0.0;
    assert b * (c - x) == b * c - b * x && b * (c + x) == b * c + b * x && c * (t - b) == c * t - b * c;
  }

  lemma Cross(a: real, b: real, s: real, t: real)
    ensures a * t - b * s == t * (a - b) + b * (t - s)
  {
  }

  lemma Swapped(a: real, b: real, c: real)
    ensures a * (b * c) == b * (a * c) == b * (c * a)
  {
    assert a * c == c * a;
    assert a * (b * c) == (a * b) * c;
    assert (a * b) * c == (b * a) * c == b * (a * c);
  }

  lemma Minus(k: real, x: real, y: real)
    ensures k * (x - y) == k * x - k * y
  {
  }

  /** So an output near a share is near the share of the true ones: from above ... */
  lemma ShareFromAbove(out: real, a: real, b: real, s: real, t: real, w: real)
    requires t > 0.0 && s >= 65536.0 && w >= 0.0 && a * t - b * s <= w && out * s <= 65536.0 * a
    ensures out * t <= 65536.0 * b + w
  {
    MulReal(t, out * s, 65536.0 * a);
    Swapped(t, s, out);
    Swapped(t, 65536.0, a);
    Swapped(s, 65536.0, b);
    MulReal(w, 65536.0, s);
    Minus(s, 65536.0 * b, -w);
    CancelReal(s, out * t, 65536.0 * b + w);
  }

  /** ... and from below. */
  lemma ShareFromBelow(out: real, a: real, b: real, s: real, t: real, w: real)
    requires t > 0.0 && s >= 65536.0 && w >= 0.0 && b * s - a * t <= w && 65536.0 * a - 2.0 * s <= out * s
    ensures 65536.0 * b - w - 2.0 * t <= out * t
  {
    MulReal(t, 65536.0 * a - 2.0 * s, out * s);
    Minus(t, 65536.0 * a, 2.0 * s);
    Swapped(t, s, out);
    Swapped(t, 65536.0, a);
    Swapped(t, 2.0, s);
    Swapped(s, 65536.0, b);
    MulReal(w, 65536.0, s);
    Minus(s, 65536.0 * b - w, 2.0 * t);
    Minus(s, 65536.0 * b, w);
    Swapped(s, 2.0, t);
    CancelReal(s, 65536.0 * b - w - 2.0 * t, out * t);
  }

  /** Where no difference wraps and the mass is shared, every output of the kernel is the softmax
      of its logit, in units of 2^-16, within 3n + 5 units for n logits. */
  lemma KernelIsSoftmax(exp: Exp, e: int -> real, logits: seq<I32>, k: nat)
    requires Sound(exp) && Approximates(exp, e) && InReach(logits) && k < |logits|
    requires var es := Exps(exp, logits, Largest(logits, |logits|)); Sum(es, |es|) > 65536
    ensures
      var top := Largest(logits, |logits|);
      var es := Exps(exp, logits, top);
      var part, total := e(logits[k] as int - top as int), TrueSum(e, logits, top, |logits|);
      && Sum(es, |es|) > 0 && total > 0.0
      && Abs(Normalised(es, Inverse(Sum(es, |es|)))[k] as real - 65536.0 * (part / total))
         <= 3.0 * |logits| as real + 5.0
  {
    hide *;
    var top, n := Largest(logits, |logits|), |logits|;
    var es := Exps(exp, logits, top);
    var sum := Sum(es, n);
    var x, total := e(logits[k] as int - top as int), TrueSum(e, logits, top, n);
    ExpsBounded(exp, logits);
    NormalisedIsScalar(es);
    OutsAt(es, Inverse(sum), k);
    OutIsShare(es[k], sum);
    TermIsNear(exp, e, logits, k);
    SumIsNear(exp, e, logits);
    TermOfSum(exp, e, logits, top, n, k);
    var out := ScalarOut(es[k], Inverse(sum));
    ShareIsNear(out as real, es[k] as real, x, sum as real, total, 3.0 * n as real);
  }

  lemma OutsAt(es: seq<nat>, inv: nat, k: nat)
    requires k < |es|
    ensures Outs(es, inv)[k] == ScalarOut(es[k], inv)
  {
  }

  lemma ShareIsNear(out: real, a: real, b: real, s: real, t: real, c: real)
    requires 0.0 < b <= t && Abs(a - b) <= 3.0 && Abs(s - t) <= c && s >= 65536.0
    requires 65536.0 * a - 2.0 * s <= out * s <= 65536.0 * a
    ensures Abs(out - 65536.0 * (b / t)) <= c + 5.0
  {
    CrossIsNear(a, b, s, t, 3.0, c);
    var w := 3.0 * t + c * t;
    assert w >= 0.0 by {
      MulReal(t, 0.0, c);
    }
    ShareFromAbove(out, a, b, s, t, w);
    ShareFromBelow(out, a, b, s, t, w);
    DivideOut(out, b, t, c, w);
  }

  lemma DivideOut(out: real, x: real, total: real, c: real, w: real)
    requires total > 0.0 && w == 3.0 * total + c * total
    requires 65536.0 * x - w - 2.0 * total <= out * total <= 65536.0 * x + w
    ensures Abs(out - 65536.0 * (x / total)) <= c + 5.0
  {
    var q := x / total;
    assert q * total == x;
    Minus(total, out, 65536.0 * q);
    Swapped(total, 65536.0, q);
    Minus(total, c, -5.0);
    CancelReal(total, out - 65536.0 * q, c + 5.0);
    Minus(total, -c, 5.0);
    CancelReal(total, -c - 5.0, out - 65536.0 * q);
  }
}
