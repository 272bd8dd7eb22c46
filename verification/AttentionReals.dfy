// What attention computes where its operations are those of the reals: a weighted mean of the
// values, with weights in the ratio of the exponentials of the scores.
module AttentionReals {
  import opened Attention

  /** The operations of the reals, with an exponential. */
  ghost predicate Reals<V>(fl: Floats<real, V>)
  {
    && fl.zero == 0.0
    && (forall a, b :: fl.add(a, b) == a + b)
    && (forall a, b :: fl.sub(a, b) == a - b)
    && (forall a, b :: fl.mul(a, b) == a * b)
    && (forall a :: a != 0.0 ==> fl.recip(a) * a == 1.0)
    && (forall a :: fl.exp(a) > 0.0)
    && (forall a, b {:trigger fl.exp(fl.sub(a, b))} :: fl.exp(fl.sub(a, b)) * fl.exp(b) == fl.exp(a))
  }

  /** One coordinate of the vectors, which adding a scaled vector acts on by itself. */
  ghost predicate Coordinate<V(!new)>(fl: Floats<real, V>, c: V -> real)
  {
    && c(fl.zeroVec) == 0.0
    && forall a, v, w :: c(fl.addScaled(a, v, w)) == c(a) + c(v) * w
  }

  // ----- sums -----

  function Sum(xs: seq<real>): real
  {
    if xs == [] then 0.0 else Sum(xs[..|xs| - 1]) + xs[|xs| - 1]
  }

  lemma {:induction false} SumScaled(xs: seq<real>, ys: seq<real>, k: real)
    requires |xs| == |ys| && forall i :: 0 <= i < |xs| ==> ys[i] == xs[i] * k
    ensures Sum(ys) == Sum(xs) * k
  {
    if xs != [] {
      SumScaled(xs[..|xs| - 1], ys[..|ys| - 1], k);
    }
  }

  lemma {:induction false} SumPositive(xs: seq<real>)
    requires forall i :: 0 <= i < |xs| ==> xs[i] > 0.0
    ensures Sum(xs) >= 0.0 && (xs != [] ==> Sum(xs) > 0.0)
  {
    if xs != [] {
      SumPositive(xs[..|xs| - 1]);
    }
  }

  lemma {:induction false} TotalIsSum<V>(fl: Floats<real, V>, xs: seq<real>, n: nat)
    requires Reals(fl) && n <= |xs|
    ensures Total(fl, xs, n) == Sum(xs[..n])
  {
    if n > 0 {
      TotalIsSum(fl, xs, n - 1);
      assert xs[..n][..n - 1] == xs[..n - 1];
    }
  }

  // ----- the weights -----

  function Exponentials<V>(fl: Floats<real, V>, scores: seq<real>): (r: seq<real>)
    ensures |r| == |scores| && forall i :: 0 <= i < |r| ==> r[i] == fl.exp(scores[i])
  {
    seq(|scores|, i requires 0 <= i < |scores| => fl.exp(scores[i]))
  }

  lemma MulPositive(a: real, b: real)
    requires a > 0.0
    ensures a * b > 0.0 <==> b > 0.0
  {
  }

  /** The largest score bounds them all and is one of them: no exponent is positive. */
  lemma {:induction false} LargestBounds<V>(fl: Floats<real, V>, scores: seq<real>, n: nat, i: nat)
    requires (forall a, b :: fl.greater(a, b) <==> a > b) && i < n <= |scores|
    requires forall k :: 0 <= k < n ==> scores[k] > fl.negInf
    ensures scores[i] <= Largest(fl, scores, n) && Largest(fl, scores, n) in scores[..n]
  {
    if n > 1 {
      LargestBounds(fl, scores, n - 1, if i < n - 1 then i else 0);
      assert scores[..n] == scores[..n - 1] + [scores[n - 1]];
    }
  }

  lemma ExpFacts<V>(fl: Floats<real, V>, x: real, top: real)
    requires Reals(fl)
    ensures fl.exp(x) > 0.0 && fl.exp(fl.sub(x, top)) > 0.0
    ensures fl.exp(fl.sub(x, top)) * fl.exp(top) == fl.exp(x)
  {
  }

  lemma ExpsPositive<V>(fl: Floats<real, V>, scores: seq<real>, top: real)
    requires Reals(fl)
    ensures forall i :: 0 <= i < |scores| ==> Exps(fl, scores, top)[i] > 0.0
  {
    hide Reals;
    forall i | 0 <= i < |scores|
      ensures Exps(fl, scores, top)[i] > 0.0
    {
      ExpFacts(fl, scores[i], top);
    }
  }

  lemma Reciprocal<V>(fl: Floats<real, V>, a: real)
    requires Reals(fl) && a > 0.0
    ensures fl.recip(a) > 0.0 && a * fl.recip(a) == 1.0
  {
    assert fl.recip(a) * a == 1.0;
    MulPositive(a, fl.recip(a));
  }

  /** A weight is the score's exponential, relative to the largest score, over their total. */
  lemma WeightIs<V>(fl: Floats<real, V>, scores: seq<real>, top: real, i: nat)
    requires Reals(fl) && i < |scores|
    ensures Softmax(fl, scores, top)[i] == Exps(fl, scores, top)[i] * fl.recip(Sum(Exps(fl, scores, top)))
    ensures Exps(fl, scores, top)[i] == fl.exp(fl.sub(scores[i], top))
  {
    var exps := Exps(fl, scores, top);
    TotalIsSum(fl, exps, |exps|);
    assert exps[..|exps|] == exps;
    hide Total, Sum;
  }

  /** Every weight is positive, and they sum to one. */
  lemma WeightsSumToOne<V>(fl: Floats<real, V>, scores: seq<real>, top: real)
    requires Reals(fl) && scores != []
    ensures forall i :: 0 <= i < |scores| ==> Softmax(fl, scores, top)[i] > 0.0
    ensures Sum(Softmax(fl, scores, top)) == 1.0
  {
    hide *;
    var exps, w := Exps(fl, scores, top), Softmax(fl, scores, top);
    ExpsPositive(fl, scores, top);
    SumPositive(exps);
    var inv := fl.recip(Sum(exps));
    Reciprocal(fl, Sum(exps));
    forall i | 0 <= i < |w|
      ensures w[i] == exps[i] * inv && w[i] > 0.0
    {
      WeightIs(fl, scores, top, i);
      MulPositive(exps[i], inv);
    }
    SumScaled(exps, w, inv);
  }

  /** They are in the ratio of the exponentials of the scores, whatever is subtracted first. */
  lemma WeightsInRatio<V>(fl: Floats<real, V>, scores: seq<real>, top: real, i: nat, j: nat)
    requires Reals(fl) && i < |scores| && j < |scores|
    ensures Softmax(fl, scores, top)[i] * fl.exp(scores[j]) == Softmax(fl, scores, top)[j] * fl.exp(scores[i])
  {
    hide *;
    var exps := Exps(fl, scores, top);
    WeightIs(fl, scores, top, i);
    WeightIs(fl, scores, top, j);
    ExpFacts(fl, scores[i], top);
    ExpFacts(fl, scores[j], top);
    Swap(exps[i], exps[j], fl.recip(Sum(exps)), fl.exp(top));
  }

  lemma Swap(a: real, b: real, inv: real, k: real)
    ensures (a * inv) * (b * k) == (b * inv) * (a * k)
  {
  }

  /** A weight is its exponential's share of all of them. */
  lemma WeightIsShare<V>(fl: Floats<real, V>, scores: seq<real>, top: real, i: nat, e: seq<real>)
    requires Reals(fl) && i < |scores| == |e| && forall k :: 0 <= k < |e| ==> e[k] == fl.exp(scores[k])
    ensures Softmax(fl, scores, top)[i] * Sum(e) == e[i]
  {
    hide *;
    var w := Softmax(fl, scores, top);
    forall j | 0 <= j < |e|
      ensures w[i] * e[j] == w[j] * e[i]
    {
      WeightsInRatio(fl, scores, top, i, j);
    }
    WeightsSumToOne(fl, scores, top);
    SharesOf(w, e, i);
  }

  /** Numbers in the ratio of others, with sum 1, are their shares. */
  lemma SharesOf(w: seq<real>, e: seq<real>, i: nat)
    requires i < |w| == |e| && Sum(w) == 1.0 && forall j :: 0 <= j < |e| ==> w[i] * e[j] == w[j] * e[i]
    ensures w[i] * Sum(e) == e[i]
  {
    hide *;
    var products := Scaled(e, w[i]);
    SumScaled(e, products, w[i]);
    SumScaled(w, products, e[i]);
  }

  function Scaled(xs: seq<real>, k: real): (r: seq<real>)
    ensures |r| == |xs| && forall i :: 0 <= i < |r| ==> r[i] == xs[i] * k
  {
    seq(|xs|, i requires 0 <= i < |xs| => xs[i] * k)
  }

  // ----- the weighted mean -----

  /** What is weighted: a coordinate of the values at the positions, times other numbers. */
  function Times<V>(c: V -> real, values: nat -> V, positions: seq<nat>, ws: seq<real>): (r: seq<real>)
    requires |positions| == |ws|
    ensures |r| == |ws| && forall i :: 0 <= i < |r| ==> r[i] == c(values(positions[i])) * ws[i]
  {
    seq(|ws|, i requires 0 <= i < |ws| => c(values(positions[i])) * ws[i])
  }

  lemma {:induction false} MixIsSum<V(!new)>(fl: Floats<real, V>, c: V -> real, values: nat -> V, positions: seq<nat>,
                                             ws: seq<real>, n: nat)
    requires Coordinate(fl, c) && n <= |positions| == |ws|
    ensures c(Mix(fl, values, positions, ws, n)) == Sum(Times(c, values, positions, ws)[..n])
  {
    if n > 0 {
      MixIsSum(fl, c, values, positions, ws, n - 1);
      assert Times(c, values, positions, ws)[..n][..n - 1] == Times(c, values, positions, ws)[..n - 1];
    }
  }

  /** Attention is the mean of the values, each weighted by the exponential of its score: in every
      coordinate, the result times the sum of those exponentials is the sum of their products
      with the values. */
  lemma AttendIsMean<V(!new)>(fl: Floats<real, V>, c: V -> real, q: V, keys: nat -> V, values: nat -> V,
                              positions: seq<nat>, e: seq<real>)
    requires Reals(fl) && Coordinate(fl, c) && positions != []
    requires |e| == |positions| && forall i :: 0 <= i < |e| ==> e[i] == fl.exp(fl.score(q, keys(positions[i])))
    ensures c(Attend(fl, q, keys, values, positions)) * Sum(e) == Sum(Times(c, values, positions, e))
    ensures Sum(e) > 0.0
  {
    hide *;
    var scores := ScoresOf(fl, q, keys, positions);
    var top := Largest(fl, scores, |scores|);
    var w := Softmax(fl, scores, top);
    AttendIs(fl, q, keys, values, positions, w);
    ScoresAre(fl, q, keys, positions);
    var terms := Times(c, values, positions, w);
    MixIsSum(fl, c, values, positions, w, |positions|);
    assert terms[..|positions|] == terms;
    SharesAre(fl, scores, top, e);
    TermsScaled(c, values, positions, w, e);
  }

  lemma SharesAre<V>(fl: Floats<real, V>, scores: seq<real>, top: real, e: seq<real>)
    requires Reals(fl) && scores != []
    requires |scores| == |e| && forall k :: 0 <= k < |e| ==> e[k] == fl.exp(scores[k])
    ensures forall i :: 0 <= i < |e| ==> Softmax(fl, scores, top)[i] * Sum(e) == e[i]
    ensures Sum(e) > 0.0
  {
    hide *;
    forall i | 0 <= i < |e|
      ensures Softmax(fl, scores, top)[i] * Sum(e) == e[i]
    {
      WeightIsShare(fl, scores, top, i, e);
    }
    forall i | 0 <= i < |e|
      ensures e[i] > 0.0
    {
      ExpFacts(fl, scores[i], top);
    }
    SumPositive(e);
  }

  lemma AttendIs<V>(fl: Floats<real, V>, q: V, keys: nat -> V, values: nat -> V, positions: seq<nat>, w: seq<real>)
    requires var s := ScoresOf(fl, q, keys, positions); w == Softmax(fl, s, Largest(fl, s, |s|))
    ensures |w| == |positions| && Attend(fl, q, keys, values, positions) == Mix(fl, values, positions, w, |positions|)
  {
  }

  /** Weights that are shares of e give a sum of products that is e's share. */
  lemma TermsScaled<V>(c: V -> real, values: nat -> V, positions: seq<nat>, w: seq<real>, e: seq<real>)
    requires |positions| == |w| == |e| && forall i :: 0 <= i < |e| ==> w[i] * Sum(e) == e[i]
    ensures Sum(Times(c, values, positions, w)) * Sum(e) == Sum(Times(c, values, positions, e))
  {
    hide Sum, Times;
    var terms, products := Times(c, values, positions, w), Times(c, values, positions, e);
    forall i | 0 <= i < |e|
      ensures products[i] == terms[i] * Sum(e)
    {
      Regroup(c(values(positions[i])), w[i], Sum(e));
    }
    SumScaled(terms, products, Sum(e));
  }

  lemma ScoresAre<V>(fl: Floats<real, V>, q: V, keys: nat -> V, positions: seq<nat>)
    ensures forall i :: 0 <= i < |positions| ==>
        ScoresOf(fl, q, keys, positions)[i] == fl.score(q, keys(positions[i]))
  {
  }

  lemma Regroup(a: real, b: real, c: real)
    ensures a * (b * c) == (a * b) * c
  {
  }

  /** Where all values agree in a coordinate, the result has it. */
  lemma EqualValues<V(!new)>(fl: Floats<real, V>, c: V -> real, q: V, keys: nat -> V, values: nat -> V,
                             positions: seq<nat>, x: real)
    requires Reals(fl) && Coordinate(fl, c) && positions != []
    requires forall i :: 0 <= i < |positions| ==> c(values(positions[i])) == x
    ensures c(Attend(fl, q, keys, values, positions)) == x
  {
    hide *;
    var e := Exponentials(fl, ScoresOf(fl, q, keys, positions));
    ScoresAre(fl, q, keys, positions);
    AttendIsMean(fl, c, q, keys, values, positions, e);
    SumScaled(e, Times(c, values, positions, e), x);
    Cancel(c(Attend(fl, q, keys, values, positions)), x, Sum(e));
  }

  lemma Cancel(a: real, b: real, k: real)
    requires k > 0.0 && a * k == k * b
    ensures a == b
  {
    assert (a - b) * k == 0.0;
  }

  /** The paged walk of a query whose context ends at its own position, over values equal in a
      coordinate or not. */
  lemma PagedIsMean<V(!new)>(fl: Floats<real, V>, c: V -> real, q: V, keys: nat -> V, values: nat -> V, seen: nat,
                             e: seq<real>)
    requires Reals(fl) && Coordinate(fl, c) && seen >= 1
    requires |e| == seen && forall t :: 0 <= t < seen ==> e[t] == fl.exp(fl.score(q, keys(t)))
    ensures c(MaskedAttend(fl, q, keys, values, seen, seen)) * Sum(e) == Sum(Times(c, values, Upto(seen), e))
  {
    hide *;
    MaskedIsPrefix(fl, q, keys, values, seen, seen);
    AttendIsMean(fl, c, q, keys, values, Upto(seen), e);
  }
}
