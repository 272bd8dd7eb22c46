// Attention over the paged cache: the page-by-page walk, and the sparse position sets.
module Attention {
  import opened Common
  import P = Paging

  /** The float operations, uninterpreted: what is proved holds for any rounding. */
  datatype Floats<!F, !V> = Floats(
    negInf: F, zero: F, greater: (F, F) -> bool, sub: (F, F) -> F, exp: F -> F, add: (F, F) -> F,
    recip: F -> F, mul: (F, F) -> F, score: (V, V) -> F, zeroVec: V, addScaled: (V, V, F) -> V)

  // ----- what attention computes, position by position -----

  function Largest<F, V>(fl: Floats<F, V>, scores: seq<F>, n: nat): F
    requires n <= |scores|
  {
    if n == 0 then fl.negInf
    else var m := Largest(fl, scores, n - 1); if fl.greater(scores[n - 1], m) then scores[n - 1] else m
  }

  function Exps<F, V>(fl: Floats<F, V>, scores: seq<F>, top: F): (r: seq<F>)
    ensures |r| == |scores|
  {
    seq(|scores|, i requires 0 <= i < |scores| => fl.exp(fl.sub(scores[i], top)))
  }

  function Total<F, V>(fl: Floats<F, V>, xs: seq<F>, n: nat): F
    requires n <= |xs|
  {
    if n == 0 then fl.zero else fl.add(Total(fl, xs, n - 1), xs[n - 1])
  }

  function Softmax<F, V>(fl: Floats<F, V>, scores: seq<F>, top: F): (r: seq<F>)
    ensures |r| == |scores|
  {
    var exps := Exps(fl, scores, top);
    var inv := fl.recip(Total(fl, exps, |exps|));
    seq(|scores|, i requires 0 <= i < |scores| => fl.mul(exps[i], inv))
  }

  /** Values at the first n of the positions, weighted and summed in order. */
  function Mix<F, V>(fl: Floats<F, V>, values: nat -> V, positions: seq<nat>, weights: seq<F>, n: nat): V
    requires n <= |positions| && n <= |weights|
  {
    if n == 0 then fl.zeroVec
    else fl.addScaled(Mix(fl, values, positions, weights, n - 1), values(positions[n - 1]), weights[n - 1])
  }

  function ScoresOf<F, V>(fl: Floats<F, V>, q: V, keys: nat -> V, positions: seq<nat>): (r: seq<F>)
    ensures |r| == |positions|
  {
    seq(|positions|, i requires 0 <= i < |positions| => fl.score(q, keys(positions[i])))
  }

  /** Attention of q over a list of positions. */
  function Attend<F, V>(fl: Floats<F, V>, q: V, keys: nat -> V, values: nat -> V, positions: seq<nat>): V
  {
    var scores := ScoresOf(fl, q, keys, positions);
    var weights := Softmax(fl, scores, Largest(fl, scores, |scores|));
    Mix(fl, values, positions, weights, |positions|)
  }

  function Upto(n: nat): (r: seq<nat>)
    ensures |r| == n && forall i :: 0 <= i < n ==> r[i] == i
  {
    seq(n, i requires 0 <= i => i)
  }

  function MaskedScores<F, V>(fl: Floats<F, V>, q: V, keys: nat -> V, seen: nat, seqLen: nat): (r: seq<F>)
    ensures |r| == seqLen
  {
    seq(seqLen, t requires 0 <= t < seqLen => if t < seen then fl.score(q, keys(t)) else fl.negInf)
  }

  /** Softmax weights under the causal mask: the masked positions take part in the softmax. */
  function MaskedWeights<F, V>(fl: Floats<F, V>, q: V, keys: nat -> V, seen: nat, seqLen: nat): (r: seq<F>)
    requires seen <= seqLen
    ensures |r| == seqLen
  {
    var scores := MaskedScores(fl, q, keys, seen, seqLen);
    Softmax(fl, scores, Largest(fl, scores, seen))
  }

  /** Flat causal attention: only the positions before `seen` are mixed. */
  function MaskedAttend<F, V>(fl: Floats<F, V>, q: V, keys: nat -> V, values: nat -> V, seen: nat, seqLen: nat): V
    requires seen <= seqLen
  {
    Mix(fl, values, Upto(seen), MaskedWeights(fl, q, keys, seen, seqLen), seen)
  }

  // ----- masked positions do not count -----

  /** A masked position adds nothing to the sum actually reached: exp(-inf - top), for the
      largest of these scores, leaves their total as it is. In IEEE arithmetic that is so as
      soon as one of the scores is a number above -inf. */
  ghost predicate MaskVanishes<F, V>(fl: Floats<F, V>, scores: seq<F>)
  {
    var top := Largest(fl, scores, |scores|);
    var total := Total(fl, Exps(fl, scores, top), |scores|);
    fl.add(total, fl.exp(fl.sub(fl.negInf, top))) == total
  }

  lemma {:induction false} LargestAgrees<F, V>(fl: Floats<F, V>, a: seq<F>, b: seq<F>, n: nat)
    requires n <= |a| && n <= |b| && forall i :: 0 <= i < n ==> a[i] == b[i]
    ensures Largest(fl, a, n) == Largest(fl, b, n)
  {
    if n > 0 {
      LargestAgrees(fl, a, b, n - 1);
    }
  }

  lemma {:induction false} TotalAgrees<F, V>(fl: Floats<F, V>, a: seq<F>, b: seq<F>, n: nat, m: nat, masked: F)
    requires n <= |a| && n <= m <= |b|
    requires forall i :: 0 <= i < n ==> a[i] == b[i]
    requires forall i :: n <= i < m ==> b[i] == masked
    requires n < m ==> fl.add(Total(fl, a, n), masked) == Total(fl, a, n)
    ensures Total(fl, a, n) == Total(fl, b, m)
  {
    if m > n {
      TotalAgrees(fl, a, b, n, m - 1, masked);
    } else if n > 0 {
      TotalAgrees(fl, a, b, n - 1, n - 1, masked);
    }
  }

  lemma {:induction false} MixAgrees<F, V>(fl: Floats<F, V>, va: nat -> V, vb: nat -> V, positions: seq<nat>,
                                           a: seq<F>, b: seq<F>, n: nat)
    requires n <= |positions| && n <= |a| && n <= |b|
    requires forall i :: 0 <= i < n ==> a[i] == b[i] && va(positions[i]) == vb(positions[i])
    ensures Mix(fl, va, positions, a, n) == Mix(fl, vb, positions, b, n)
  {
    if n > 0 {
      MixAgrees(fl, va, vb, positions, a, b, n - 1);
    }
  }

  /** Masking is leaving out: the masked positions change nothing. */
  lemma MaskedIsPrefix<F, V>(fl: Floats<F, V>, q: V, keys: nat -> V, values: nat -> V, seen: nat, seqLen: nat)
    requires seen <= seqLen && (seen < seqLen ==> MaskVanishes(fl, ScoresOf(fl, q, keys, Upto(seen))))
    ensures MaskedAttend(fl, q, keys, values, seen, seqLen) == Attend(fl, q, keys, values, Upto(seen))
  {
    var a, b := ScoresOf(fl, q, keys, Upto(seen)), MaskedScores(fl, q, keys, seen, seqLen);
    LargestAgrees(fl, a, b, seen);
    var top := Largest(fl, a, seen);
    TotalAgrees(fl, Exps(fl, a, top), Exps(fl, b, top), seen, seqLen, fl.exp(fl.sub(fl.negInf, top)));
    MixAgrees(fl, values, values, Upto(seen), Softmax(fl, a, top), Softmax(fl, b, top), seen);
  }

  /** Causality: keys and values after the query's position do not matter. */
  lemma Causal<F, V>(fl: Floats<F, V>, q: V, keys: nat -> V, values: nat -> V, keys': nat -> V, values': nat -> V,
                     seen: nat, seqLen: nat)
    requires seen <= seqLen && forall t :: 0 <= t < seen ==> keys(t) == keys'(t) && values(t) == values'(t)
    ensures MaskedAttend(fl, q, keys, values, seen, seqLen) == MaskedAttend(fl, q, keys', values', seen, seqLen)
  {
    var a, b := MaskedScores(fl, q, keys, seen, seqLen), MaskedScores(fl, q, keys', seen, seqLen);
    assert a == b;
    var w := Softmax(fl, a, Largest(fl, a, seen));
    MixAgrees(fl, values, values', Upto(seen), w, w, seen);
  }

  // ----- the paged walk -----

  /** The pages hold, at each position's page and slot, that position's vector. */
  ghost predicate Holds<V>(pages: (nat, nat) -> V, flat: nat -> V, n: nat, maxSeqLen: nat)
  {
    forall t {:trigger P.PageId(t, maxSeqLen)} :: 0 <= t < n ==>
        pages(P.PageId(t, maxSeqLen), P.SlotInPage(t)) == flat(t)
  }

  /** Pages after storing the vectors of positions 0..n-1 at their page and slot. */
  function Stored<V>(flat: nat -> V, n: nat, maxSeqLen: nat): map<(nat, nat), V>
  {
    if n == 0 then map[]
    else Stored(flat, n - 1, maxSeqLen)[(P.PageId(n - 1, maxSeqLen), P.SlotInPage(n - 1)) := flat(n - 1)]
  }

  /** No store overwrites another position's slot. */
  lemma {:induction false} StoredHolds<V>(flat: nat -> V, n: nat, t: nat, maxSeqLen: nat)
    requires t < n
    ensures (P.PageId(t, maxSeqLen), P.SlotInPage(t)) in Stored(flat, n, maxSeqLen)
    ensures Stored(flat, n, maxSeqLen)[(P.PageId(t, maxSeqLen), P.SlotInPage(t))] == flat(t)
  {
    if t < n - 1 {
      StoredHolds(flat, n - 1, t, maxSeqLen);
      if P.PageId(t, maxSeqLen) == P.PageId(n - 1, maxSeqLen) && P.SlotInPage(t) == P.SlotInPage(n - 1) {
        P.PageAndSlotInjective(t, n - 1, maxSeqLen);
      }
    }
  }

  /** One page, read from its base, holds the vectors of positions from..to. */
  ghost predicate OnPage<V>(pages: (nat, nat) -> V, flat: nat -> V, pid: nat, from: nat, to: nat)
  {
    forall t :: from <= t <= to ==> pages(pid, t - from) == flat(t)
  }

  /** The k-th page, cut off at validEnd, read at t where it starts. */
  method PageAt<V>(t: nat, ghost k: nat, validEnd: nat, maxSeqLen: nat, ghost pages: (nat, nat) -> V,
                   ghost flat: nat -> V)
    returns (pid: nat, pageStart: nat, pageEnd: nat)
    requires t <= validEnd && t == P.StartOf(k) && Holds(pages, flat, validEnd + 1, maxSeqLen)
    ensures pageStart == t <= pageEnd <= validEnd && OnPage(pages, flat, pid, pageStart, pageEnd)
    ensures pageEnd < validEnd ==> pageEnd + 1 == P.StartOf(k + 1)
  {
    P.StartsAreAligned(k);
    pid, pageStart := P.PageId(t, maxSeqLen), P.PageStartFor(t);
    pageEnd := Min(pageStart + P.BlockSizeFor(t) - 1, validEnd);
    forall tt | pageStart <= tt <= pageEnd
      ensures pages(pid, tt - pageStart) == flat(tt)
    {
      P.PageHoldsItsBlock(t, tt, maxSeqLen);
    }
  }

  /** The score loop over one page. */
  method ScorePage<F, V>(fl: Floats<F, V>, q: V, kPages: (nat, nat) -> V, ghost keys: nat -> V, ghost goal: seq<F>,
                         pid: nat, pageStart: nat, pageEnd: nat, top: F, scores: array<F>)
    returns (best: F)
    requires pageStart <= pageEnd < scores.Length == |goal| && OnPage(kPages, keys, pid, pageStart, pageEnd)
    requires forall u :: 0 <= u <= pageEnd ==> goal[u] == fl.score(q, keys(u))
    requires top == Largest(fl, goal, pageStart) && forall u :: 0 <= u < pageStart ==> scores[u] == goal[u]
    modifies scores
    ensures best == Largest(fl, goal, pageEnd + 1) && forall u :: 0 <= u <= pageEnd ==> scores[u] == goal[u]
  {
    best := top;
    for tt := pageStart to pageEnd + 1
      invariant best == Largest(fl, goal, tt) && forall u :: 0 <= u < tt ==> scores[u] == goal[u]
    {
      var s := fl.score(q, kPages(pid, tt - pageStart));
      assert s == goal[tt];
      scores[tt] := s;
      best := if fl.greater(s, best) then s else best;
    }
  }

  /** The score loop of one head, page by page. */
  method ScorePages<F, V>(fl: Floats<F, V>, q: V, kPages: (nat, nat) -> V, ghost keys: nat -> V, ghost goal: seq<F>,
                          validEnd: nat, maxSeqLen: nat, scores: array<F>)
    returns (top: F)
    requires validEnd < scores.Length == |goal| && Holds(kPages, keys, validEnd + 1, maxSeqLen)
    requires forall u :: 0 <= u <= validEnd ==> goal[u] == fl.score(q, keys(u))
    modifies scores
    ensures top == Largest(fl, goal, validEnd + 1) && forall u :: 0 <= u <= validEnd ==> scores[u] == goal[u]
  {
    top := fl.negInf;
    var t := 0;
    ghost var k := 0;
    while t <= validEnd
      invariant t <= validEnd + 1 && (t <= validEnd ==> t == P.StartOf(k))
      invariant top == Largest(fl, goal, t) && forall u :: 0 <= u < t ==> scores[u] == goal[u]
    {
      var pid, pageStart, pageEnd := PageAt(t, k, validEnd, maxSeqLen, kPages, keys);
      top := ScorePage(fl, q, kPages, keys, goal, pid, pageStart, pageEnd, top, scores);
      t := pageEnd + 1;
      k := k + 1;
    }
  }

  /** The causal mask and the softmax, in place over the score buffer. */
  method MaskAndSoftmax<F, V>(fl: Floats<F, V>, seen: nat, top: F, scores: array<F>, ghost goal: seq<F>)
    requires seen <= scores.Length == |goal|
    requires forall u :: 0 <= u < seen ==> scores[u] == goal[u]
    requires forall u :: seen <= u < |goal| ==> goal[u] == fl.negInf
    modifies scores
    ensures scores[..] == Softmax(fl, goal, top)
  {
    for t := seen to scores.Length
      invariant forall u :: 0 <= u < t ==> scores[u] == goal[u]
    {
      scores[t] := fl.negInf;
    }
    ghost var exps := Exps(fl, goal, top);
    var sum := fl.zero;
    for t := 0 to scores.Length
      invariant sum == Total(fl, exps, t)
      invariant forall u :: 0 <= u < scores.Length ==> scores[u] == if u < t then exps[u] else goal[u]
    {
      scores[t] := fl.exp(fl.sub(scores[t], top));
      sum := fl.add(sum, scores[t]);
    }
    var inv := fl.recip(sum);
    for t := 0 to scores.Length
      invariant forall u :: 0 <= u < scores.Length ==> scores[u] == if u < t then Softmax(fl, goal, top)[u] else exps[u]
    {
      scores[t] := fl.mul(scores[t], inv);
    }
  }

  /** The weighted sum over one page. */
  method MixPage<F, V>(fl: Floats<F, V>, vPages: (nat, nat) -> V, ghost values: nat -> V, ghost positions: seq<nat>,
                       pid: nat, pageStart: nat, pageEnd: nat, sum: V, scores: array<F>)
    returns (out: V)
    requires pageStart <= pageEnd < scores.Length && pageEnd < |positions|
    requires forall u :: 0 <= u < |positions| ==> positions[u] == u
    requires OnPage(vPages, values, pid, pageStart, pageEnd)
    requires sum == Mix(fl, values, positions, scores[..], pageStart)
    ensures out == Mix(fl, values, positions, scores[..], pageEnd + 1)
  {
    out := sum;
    for tt := pageStart to pageEnd + 1
      invariant out == Mix(fl, values, positions, scores[..], tt)
    {
      out := fl.addScaled(out, vPages(pid, tt - pageStart), scores[tt]);
    }
  }

  /** The weighted sum over the page that starts at t, the k-th. */
  method MixNext<F, V>(fl: Floats<F, V>, vPages: (nat, nat) -> V, ghost values: nat -> V, ghost positions: seq<nat>,
                       t: nat, ghost k: nat, validEnd: nat, maxSeqLen: nat, sum: V, scores: array<F>)
    returns (out: V, next: nat)
    requires t <= validEnd < scores.Length && t == P.StartOf(k) && Holds(vPages, values, validEnd + 1, maxSeqLen)
    requires positions == Upto(validEnd + 1) && sum == Mix(fl, values, positions, scores[..], t)
    ensures t < next <= validEnd + 1 && (next <= validEnd ==> next == P.StartOf(k + 1))
    ensures out == Mix(fl, values, positions, scores[..], next)
  {
    hide Mix, Holds, P.StartOf;
    var pid, pageStart, pageEnd := PageAt(t, k, validEnd, maxSeqLen, vPages, values);
    out := MixPage(fl, vPages, values, positions, pid, pageStart, pageEnd, sum, scores);
    next := pageEnd + 1;
  }

  /** The weighted sum of one head, page by page. */
  method MixPages<F, V>(fl: Floats<F, V>, vPages: (nat, nat) -> V, ghost values: nat -> V,
                        validEnd: nat, maxSeqLen: nat, scores: array<F>)
    returns (out: V)
    requires validEnd < scores.Length && Holds(vPages, values, validEnd + 1, maxSeqLen)
    ensures out == Mix(fl, values, Upto(validEnd + 1), scores[..], validEnd + 1)
  {
    ghost var positions := Upto(validEnd + 1);
    out := fl.zeroVec;
    var t := 0;
    ghost var k := 0;
    while t <= validEnd
      invariant t <= validEnd + 1 && (t <= validEnd ==> t == P.StartOf(k))
      invariant out == Mix(fl, values, positions, scores[..], t)
    {
      out, t := MixNext(fl, vPages, values, positions, t, k, validEnd, maxSeqLen, out, scores);
      k := k + 1;
    }
  }

  /** The last position a query attends to: its own, or the context's last if that comes before. */
  function ValidEnd(qPos: nat, seqLen: nat): (r: nat)
    requires seqLen >= 1
    ensures r <= qPos && r < seqLen && (r == qPos || r + 1 == seqLen)
  {
    Min(qPos, seqLen - 1)
  }

  /** Scores, mask and softmax: the buffer ends as the flat weights, whatever it held before. */
  method WeighPages<F, V>(fl: Floats<F, V>, q: V, kPages: (nat, nat) -> V, ghost keys: nat -> V,
                          validEnd: nat, seqLen: nat, maxSeqLen: nat, scores: array<F>)
    requires validEnd < seqLen == scores.Length && Holds(kPages, keys, validEnd + 1, maxSeqLen)
    modifies scores
    ensures scores[..] == MaskedWeights(fl, q, keys, validEnd + 1, seqLen)
  {
    ghost var goal := MaskedScores(fl, q, keys, validEnd + 1, seqLen);
    var top := ScorePages(fl, q, kPages, keys, goal, validEnd, maxSeqLen, scores);
    MaskAndSoftmax(fl, validEnd + 1, top, scores, goal);
  }

  /** `attention` for one head: the paged walk is flat causal attention, with every operation in
      the same order. */
  method AttendPaged<F, V>(fl: Floats<F, V>, q: V, kPages: (nat, nat) -> V, vPages: (nat, nat) -> V,
                           ghost keys: nat -> V, ghost values: nat -> V,
                           seqLen: nat, qPos: nat, maxSeqLen: nat, scores: array<F>)
    returns (out: V)
    requires seqLen >= 1 && scores.Length == seqLen
    requires Holds(kPages, keys, ValidEnd(qPos, seqLen) + 1, maxSeqLen)
    requires Holds(vPages, values, ValidEnd(qPos, seqLen) + 1, maxSeqLen)
    modifies scores
    ensures out == MaskedAttend(fl, q, keys, values, ValidEnd(qPos, seqLen) + 1, seqLen)
  {
    var validEnd := ValidEnd(qPos, seqLen);
    WeighPages(fl, q, kPages, keys, validEnd, seqLen, maxSeqLen, scores);
    out := MixPages(fl, vPages, values, validEnd, maxSeqLen, scores);
  }

  // ----- sparse position sets -----

  function WindowStart(validEnd: nat, window: nat): nat
  {
    if validEnd > window then validEnd - window + 1 else 0
  }

  function GlobalCount(validEnd: nat, window: nat, stride: nat): nat
    requires stride >= 1
  {
    Min(WindowStart(validEnd, window) / stride, 128)
  }

  ghost predicate Increasing(s: seq<nat>)
  {
    forall i, j :: 0 <= i < j < |s| ==> s[i] < s[j]
  }

  /** Causal, and one of the latest `window` positions, or one of the first 128 multiples of the stride
      with a whole stride between it and the window; with a window that reaches the start, every
      causal one. */
  ghost predicate Attended(validEnd: nat, window: nat, stride: nat, t: nat)
    requires stride >= 1
  {
    || (t <= validEnd && (validEnd <= window || validEnd < t + window))
    || (validEnd > window && exists gi :: 0 <= gi < 128 && t == stride * gi && t + stride <= validEnd + 1 - window)
  }

  lemma SampleExact(start: nat, stride: nat, gi: nat)
    requires stride >= 1
    ensures gi < Min(start / stride, 128) <==> gi < 128 && stride * gi + stride <= start
  {
    var q := start / stride;
    assert stride * q <= start < stride * q + stride;
    if gi < q {
      MulMonotone(stride, gi + 1, q);
      assert stride * (gi + 1) == stride * gi + stride;
    } else {
      MulMonotone(stride, q, gi);
    }
  }

  /** The same set as a sequence: the samples, then the window. */
  function Sparse(validEnd: nat, window: nat, stride: nat): (r: seq<nat>)
    requires stride >= 1
  {
    var start, count := WindowStart(validEnd, window), GlobalCount(validEnd, window, stride);
    seq(count + validEnd + 1 - start, i requires 0 <= i => if i < count then stride * i else start + i - count)
  }

  lemma SparseMembers(validEnd: nat, window: nat, stride: nat, t: nat)
    requires stride >= 1
    ensures t in Sparse(validEnd, window, stride) <==> Attended(validEnd, window, stride, t)
  {
    var s := Sparse(validEnd, window, stride);
    var start, count := WindowStart(validEnd, window), GlobalCount(validEnd, window, stride);
    if start <= t <= validEnd {
      assert s[count + t - start] == t;
    }
    forall gi: nat | gi < 128 && t == stride * gi && validEnd > window && t + stride <= start
      ensures t in s
    {
      SampleExact(start, stride, gi);
      assert s[gi] == t;
    }
    if t in s {
      var i :| 0 <= i < |s| && s[i] == t;
      if i < count {
        SampleExact(start, stride, i);
        assert start == 0 ==> count == 0;
        assert t == stride * i;
      }
    }
  }

  /** The sampled older positions are before the window. */
  lemma GlobalBeforeWindow(start: nat, stride: nat, gi: nat)
    requires stride >= 1 && gi < start / stride
    ensures stride * gi < start
  {
    MulMonotone(stride, gi, start / stride - 1);
    assert stride * (start / stride - 1) == stride * (start / stride) - stride;
  }

  /** The sampled older positions. */
  method Globals(start: nat, stride: nat) returns (positions: seq<nat>)
    requires stride >= 1
    ensures |positions| == Min(start / stride, 128)
    ensures forall i :: 0 <= i < |positions| ==> positions[i] == stride * i && positions[i] < start
    ensures Increasing(positions)
  {
    positions := [];
    var count := Min(start / stride, 128);
    for gi := 0 to count
      invariant |positions| == gi
      invariant forall i :: 0 <= i < gi ==> positions[i] == stride * i && positions[i] < start
      invariant Increasing(positions)
    {
      GlobalBeforeWindow(start, stride, gi);
      forall i | 0 <= i < gi
        ensures positions[i] < stride * gi
      {
        MulMonotone(stride, i + 1, gi);
        assert stride * (i + 1) == stride * i + stride;
      }
      positions := positions + [stride * gi];
    }
  }

  /** `attention_sparse`'s positions: causal, in increasing order, each once, and exactly these. */
  method SparsePositions(validEnd: nat, window: nat, stride: nat) returns (positions: seq<nat>)
    requires stride >= 1
    ensures Increasing(positions)
    ensures forall t :: t in positions <==> Attended(validEnd, window, stride, t)
    ensures positions == Sparse(validEnd, window, stride)
  {
    var start := WindowStart(validEnd, window);
    var globals := Globals(start, stride);
    positions := globals;
    for t := start to validEnd + 1
      invariant Increasing(positions) && |positions| == |globals| + t - start
      invariant forall i :: 0 <= i < |positions| ==>
                  positions[i] == if i < |globals| then globals[i] else start + i - |globals|
    {
      positions := positions + [t];
    }
    assert positions == Sparse(validEnd, window, stride);
    forall t
      ensures t in positions <==> Attended(validEnd, window, stride, t)
    {
      SparseMembers(validEnd, window, stride, t);
    }
  }

  lemma QuotientBound(a: nat, b: nat)
    requires b >= 1
    ensures b * (a / b) <= a
  {
  }

  /** Every older position is sampled only at stride 1 over at most 128 of them. */
  lemma SampleCount(validEnd: nat, window: nat, stride: nat)
    requires stride >= 1
    ensures validEnd <= window ==> GlobalCount(validEnd, window, stride) == 0
    ensures validEnd > window && stride == 1 && WindowStart(validEnd, window) <= 128 ==>
              GlobalCount(validEnd, window, stride) == WindowStart(validEnd, window)
    ensures validEnd > window && !(stride == 1 && WindowStart(validEnd, window) <= 128) ==>
              GlobalCount(validEnd, window, stride) < WindowStart(validEnd, window)
  {
    var start := WindowStart(validEnd, window);
    QuotientBound(start, stride);
    if stride >= 2 {
      MulMonotone(start / stride, 2, stride);
    }
  }

  /** The sparse set is the full causal range exactly when the window reaches the start of the
      sequence, or every older position is sampled. */
  lemma SparseIsFull(validEnd: nat, window: nat, stride: nat)
    requires stride >= 1
    ensures Sparse(validEnd, window, stride) == Upto(validEnd + 1)
       <==> validEnd <= window || (stride == 1 && WindowStart(validEnd, window) <= 128)
  {
    var s, full := Sparse(validEnd, window, stride), Upto(validEnd + 1);
    SampleCount(validEnd, window, stride);
    if validEnd <= window || (stride == 1 && WindowStart(validEnd, window) <= 128) {
      assert |s| == |full| && forall i :: 0 <= i < |s| ==> s[i] == full[i];
    } else {
      assert |s| < |full|;
    }
  }

  /** The window holds the query's own position and the `window` latest ones, from window 1 on. */
  lemma LatestAttended(validEnd: nat, window: nat, stride: nat, t: nat)
    requires stride >= 1 && window >= 1 && t <= validEnd && validEnd < t + window
    ensures Attended(validEnd, window, stride, t)
  {
  }

  /** With window 0 and a stride past the whole context, nothing is attended: the softmax of
      `attention_sparse` then divides by an empty sum. */
  lemma EmptySparse(validEnd: nat, window: nat, stride: nat)
    requires stride >= 1
    ensures Sparse(validEnd, window, stride) == [] <==> window == 0 && validEnd >= 1 && stride > validEnd + 1
  {
    var start := WindowStart(validEnd, window);
    assert start / stride == 0 <==> start < stride;
  }

  /** `attention_fugu`'s positions: the sparse set, then the draft positions not yet in it. */
  method FuguPositions(validEnd: nat, window: nat, stride: nat, drafts: seq<nat>) returns (positions: seq<nat>)
    requires stride >= 1
    ensures Distinct(positions)
    ensures forall t: nat :: t in positions <==> Attended(validEnd, window, stride, t) || (t in drafts && t <= validEnd)
    ensures Sparse(validEnd, window, stride) <= positions
    ensures (forall t: nat :: t <= validEnd ==> Attended(validEnd, window, stride, t)) ==>
              positions == Sparse(validEnd, window, stride)
  {
    var sparse := SparsePositions(validEnd, window, stride);
    positions := sparse;
    for i := 0 to |drafts|
      invariant Distinct(positions) && sparse <= positions
      invariant forall t :: t in positions <==> t in sparse || (t in drafts[..i] && t <= validEnd)
      invariant (forall t :: 0 <= t <= validEnd ==> t in sparse) ==> positions == sparse
    {
      var dp := drafts[i];
      assert drafts[..i + 1] == drafts[..i] + [dp];
      if dp <= validEnd && dp !in positions {
        positions := positions + [dp];
      }
    }
    assert drafts[..|drafts|] == drafts;
  }

  /** The score, softmax and weighted-sum loops over a list of positions, for one head. */
  method AttendListed<F, V>(fl: Floats<F, V>, q: V, kPages: (nat, nat) -> V, vPages: (nat, nat) -> V,
                            ghost keys: nat -> V, ghost values: nat -> V, positions: seq<nat>,
                            ghost n: nat, maxSeqLen: nat, scores: array<F>)
    returns (out: V)
    requires scores.Length == |positions| && forall i :: 0 <= i < |positions| ==> positions[i] < n
    requires Holds(kPages, keys, n, maxSeqLen) && Holds(vPages, values, n, maxSeqLen)
    modifies scores
    ensures out == Attend(fl, q, keys, values, positions)
  {
    ghost var goal := ScoresOf(fl, q, keys, positions);
    var top := ScoreListed(fl, q, kPages, keys, positions, n, maxSeqLen, scores);
    MaskAndSoftmax(fl, |positions|, top, scores, goal);
    out := MixListed(fl, vPages, values, positions, n, maxSeqLen, scores);
  }

  /** The first loop: scores and their running maximum. */
  method ScoreListed<F, V>(fl: Floats<F, V>, q: V, kPages: (nat, nat) -> V, ghost keys: nat -> V, positions: seq<nat>,
                           ghost n: nat, maxSeqLen: nat, scores: array<F>)
    returns (top: F)
    requires scores.Length == |positions| && forall i :: 0 <= i < |positions| ==> positions[i] < n
    requires Holds(kPages, keys, n, maxSeqLen)
    modifies scores
    ensures
      var goal := ScoresOf(fl, q, keys, positions);
      top == Largest(fl, goal, |positions|) && scores[..] == goal
  {
    ghost var goal := ScoresOf(fl, q, keys, positions);
    top := fl.negInf;
    for i := 0 to |positions|
      invariant top == Largest(fl, goal, i) && forall u :: 0 <= u < i ==> scores[u] == goal[u]
    {
      var t := positions[i];
      var s := fl.score(q, kPages(P.PageId(t, maxSeqLen), t - P.PageStartFor(t)));
      scores[i] := s;
      top := if fl.greater(s, top) then s else top;
    }
  }

  /** The last loop: the weighted sum. */
  method MixListed<F, V>(fl: Floats<F, V>, vPages: (nat, nat) -> V, ghost values: nat -> V, positions: seq<nat>,
                         ghost n: nat, maxSeqLen: nat, weights: array<F>)
    returns (out: V)
    requires weights.Length == |positions| && forall i :: 0 <= i < |positions| ==> positions[i] < n
    requires Holds(vPages, values, n, maxSeqLen)
    ensures out == Mix(fl, values, positions, weights[..], |positions|)
  {
    out := fl.zeroVec;
    for i := 0 to |positions|
      invariant out == Mix(fl, values, positions, weights[..], i)
    {
      var t := positions[i];
      out := fl.addScaled(out, vPages(P.PageId(t, maxSeqLen), t - P.PageStartFor(t)), weights[i]);
    }
  }

  /** Where the sparse set is full, sparse attention is full attention. */
  lemma SparseMeansFull<F, V>(fl: Floats<F, V>, q: V, keys: nat -> V, values: nat -> V,
                              validEnd: nat, seqLen: nat, window: nat, stride: nat)
    requires stride >= 1 && validEnd < seqLen
    requires validEnd + 1 < seqLen ==> MaskVanishes(fl, ScoresOf(fl, q, keys, Upto(validEnd + 1)))
    requires validEnd <= window || (stride == 1 && WindowStart(validEnd, window) <= 128)
    ensures Attend(fl, q, keys, values, Sparse(validEnd, window, stride))
         == MaskedAttend(fl, q, keys, values, validEnd + 1, seqLen)
  {
    SparseIsFull(validEnd, window, stride);
    MaskedIsPrefix(fl, q, keys, values, validEnd + 1, seqLen);
  }
}
