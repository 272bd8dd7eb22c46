// The pattern draft store: a ring buffer of hashed observations, and drafts from the best match.
module PatternDrafts {
  import opened Common
  import S = Sorting

  /** A hashed hidden state, the token that was observed with it, and its position. */
  datatype Observation = Observation(hash: nat, token: nat, pos: nat)

  // ----- hashes -----

  /** Bit i is set when the hidden state is on the positive side of plane i. */
  function HashOf(signs: seq<bool>): nat
  {
    if signs == [] then 0 else (if signs[0] then 1 else 0) + 2 * HashOf(signs[1..])
  }

  lemma {:induction false} HashBits(signs: seq<bool>, i: nat)
    ensures Bit(HashOf(signs), i) <==> i < |signs| && signs[i]
  {
    if signs == [] {
      ZeroBits(i);
    } else if i > 0 {
      HashBits(signs[1..], i - 1);
    }
  }

  /** Bits in which two 64-bit hashes differ: the ones of their exclusive or. */
  function Distance(a: nat, b: nat, bits: nat): (d: nat)
    ensures d <= bits
  {
    if bits == 0 then 0 else (if a % 2 != b % 2 then 1 else 0) + Distance(a / 2, b / 2, bits - 1)
  }

  /** The distance of two hashes is the number of planes that separate the hidden states. */
  function Separating(a: seq<bool>, b: seq<bool>): nat
    requires |a| == |b|
  {
    if a == [] then 0 else (if a[0] != b[0] then 1 else 0) + Separating(a[1..], b[1..])
  }

  lemma {:induction false} DistanceIsSeparating(a: seq<bool>, b: seq<bool>, bits: nat)
    requires |a| == |b| <= bits
    ensures Distance(HashOf(a), HashOf(b), bits) == Separating(a, b)
  {
    if a == [] {
      ZeroDistance(bits);
    } else {
      DistanceIsSeparating(a[1..], b[1..], bits - 1);
    }
  }

  lemma {:induction false} ZeroDistance(bits: nat)
    ensures Distance(0, 0, bits) == 0
  {
    if bits > 0 {
      ZeroDistance(bits - 1);
    }
  }

  function Apart(hash: nat, o: Observation): nat
  {
    Distance(hash, o.hash, 64)
  }

  /** What is compared with an observation's hash is how many planes separate the two states, for
      all of up to 64 planes. */
  lemma ApartIsSeparating(signs: seq<bool>, o: Observation, others: seq<bool>)
    requires |signs| == |others| <= 64 && o.hash == HashOf(others)
    ensures Apart(HashOf(signs), o) == Separating(signs, others)
  {
    DistanceIsSeparating(signs, others, 64);
  }

  // ----- the best match -----

  /** The earliest of the first n observations at the least distance. */
  function Best(w: seq<Observation>, hash: nat, n: nat): (k: nat)
    requires 0 < n <= |w|
    ensures k < n
  {
    if n == 1 then 0
    else var k := Best(w, hash, n - 1); if Apart(hash, w[n - 1]) < Apart(hash, w[k]) then n - 1 else k
  }

  lemma {:induction false} BestIsEarliestNearest(w: seq<Observation>, hash: nat, n: nat, j: nat)
    requires j < n <= |w|
    ensures Apart(hash, w[Best(w, hash, n)]) <= Apart(hash, w[j])
    ensures j < Best(w, hash, n) ==> Apart(hash, w[Best(w, hash, n)]) < Apart(hash, w[j])
  {
    if n > 1 {
      BestIsEarliestNearest(w, hash, n - 1, if j < n - 1 then j else 0);
      if j == n - 1 {
        BestIsEarliestNearest(w, hash, n - 1, Best(w, hash, n - 1));
      }
    }
  }

  const EXACT_MATCH_CONFIDENCE: real := 0.90
  const NEAR_MATCH_CONFIDENCE: real := 0.50
  const FAR_MATCH_CONFIDENCE: real := 0.10

  /** Confidence in a match at this distance; none beyond half of the bits. */
  function Confidence(dist: nat, numBits: nat): Option<real>
  {
    if dist == 0 then Some(EXACT_MATCH_CONFIDENCE)
    else if dist <= numBits / 4 then Some(NEAR_MATCH_CONFIDENCE)
    else if dist <= numBits / 2 then Some(FAR_MATCH_CONFIDENCE)
    else None
  }

  /** Where a draft is taken from, and how sure it is: the best match among the observations that
      enough tokens follow, if it is near enough. */
  function MatchOf(w: seq<Observation>, hash: nat, numBits: nat, draftLength: nat): Option<(nat, real)>
  {
    if |w| < draftLength + 1 then None
    else
      var k := Best(w, hash, |w| - draftLength);
      match Confidence(Apart(hash, w[k]), numBits)
      case None => None
      case Some(c) => Some((k, c))
  }

  /** What a draft for this hash is: the tokens after the match, or nothing. */
  ghost predicate IsDraft(w: seq<Observation>, hash: nat, numBits: nat, draftLength: nat, tokens: seq<nat>,
                          confs: seq<real>)
  {
    match MatchOf(w, hash, numBits, draftLength)
    case None => tokens == [] && confs == []
    case Some((k, c)) => |tokens| == |confs| == draftLength && Follows(w, k, c, tokens, confs)
  }

  ghost predicate Follows(w: seq<Observation>, k: nat, c: real, tokens: seq<nat>, confs: seq<real>)
  {
    && |tokens| == |confs| && k + |tokens| < |w|
    && forall j :: 0 <= j < |tokens| ==> tokens[j] == w[k + 1 + j].token && confs[j] == c
  }

  /** Observation k is the earliest nearest of the first n. */
  ghost predicate EarliestNearest(w: seq<Observation>, hash: nat, n: int, k: nat)
  {
    && k < n <= |w|
    && forall j :: 0 <= j < n ==>
         Apart(hash, w[k]) <= Apart(hash, w[j]) && (j < k ==> Apart(hash, w[k]) < Apart(hash, w[j]))
  }

  /** None of the first n observations is within half of the bits. */
  ghost predicate NoneNear(w: seq<Observation>, hash: nat, n: int, numBits: nat)
    requires n <= |w|
  {
    forall j :: 0 <= j < n ==> 2 * Apart(hash, w[j]) > numBits
  }

  /** How sure a match at this distance is, where half of the bits is the farthest. */
  ghost predicate SureAs(conf: real, dist: nat, numBits: nat)
  {
    && 2 * dist <= numBits
    && conf == if dist == 0 then 0.9 else if 4 * dist <= numBits then 0.5 else 0.1
  }

  /** The draft repeats what followed the earliest nearest of all observations that enough tokens
      follow; it is empty exactly when there is none, or none is within half of the bits. */
  ghost predicate FollowsNearest(w: seq<Observation>, hash: nat, numBits: nat, draftLength: nat, tokens: seq<nat>,
                                 confs: seq<real>)
  {
    && (tokens == [] <==> draftLength == 0 || NoneNear(w, hash, |w| - draftLength, numBits))
    && |tokens| == |confs|
    && (tokens != [] ==> |tokens| == draftLength && exists k: nat, c: real ::
          && EarliestNearest(w, hash, |w| - draftLength, k) && SureAs(c, Apart(hash, w[k]), numBits)
          && Follows(w, k, c, tokens, confs))
  }

  lemma DraftFollowsNearest(w: seq<Observation>, hash: nat, numBits: nat, draftLength: nat, tokens: seq<nat>,
                            confs: seq<real>)
    requires IsDraft(w, hash, numBits, draftLength, tokens, confs)
    ensures FollowsNearest(w, hash, numBits, draftLength, tokens, confs)
  {
    var n := |w| - draftLength;
    if n > 0 {
      var k := Best(w, hash, n);
      forall j | 0 <= j < n
        ensures Apart(hash, w[k]) <= Apart(hash, w[j]) && (j < k ==> Apart(hash, w[k]) < Apart(hash, w[j]))
      {
        BestIsEarliestNearest(w, hash, n, j);
      }
      assert EarliestNearest(w, hash, n, k);
    }
  }

  /** Every observation's position with its distance, oldest first. */
  function Candidates(w: seq<Observation>, hash: nat): seq<(nat, nat)>
  {
    seq(|w|, i requires 0 <= i < |w| => (w[i].pos, Apart(hash, w[i])))
  }

  function ByDistance(c: (nat, nat)): real
  {
    c.1 as real
  }

  function First<T>(s: seq<T>, n: nat): seq<T>
  {
    if |s| <= n then s else s[..n]
  }

  /** These are positions of observations with their distances, nearest first, as many as there are up
      to n; and every observation is among them, or no nearer than any of them. */
  ghost predicate AreNearest(w: seq<Observation>, hash: nat, n: nat, found: seq<(nat, nat)>)
  {
    && |found| == Min(n, |w|)
    && (forall i :: 0 <= i < |found| ==> exists o :: o in w && found[i] == (o.pos, Apart(hash, o)))
    && (forall i, j :: 0 <= i < j < |found| ==> found[i].1 <= found[j].1)
    && (forall o :: o in w ==>
          (o.pos, Apart(hash, o)) in found || forall i :: 0 <= i < |found| ==> found[i].1 <= Apart(hash, o))
  }

  lemma SortedCandidates(w: seq<Observation>, hash: nat) returns (sorted: seq<(nat, nat)>)
    ensures sorted == S.SortBy(Candidates(w, hash), ByDistance) && |sorted| == |w|
    ensures forall i :: 0 <= i < |sorted| ==> sorted[i] in Candidates(w, hash)
    ensures forall j :: 0 <= j < |w| ==> Candidates(w, hash)[j] in sorted
    ensures forall i, j :: 0 <= i < j < |sorted| ==> sorted[i].1 <= sorted[j].1
  {
    var all := Candidates(w, hash);
    sorted := S.SortBy(all, ByDistance);
    S.SortBySorts(all, ByDistance);
    assert |multiset(sorted)| == |multiset(all)|;
    forall x
      ensures x in sorted <==> x in all
    {
      assert x in multiset(sorted) <==> x in multiset(all);
    }
    forall i, j | 0 <= i < j < |sorted|
      ensures sorted[i].1 <= sorted[j].1
    {
      assert ByDistance(sorted[i]) <= ByDistance(sorted[j]);
    }
  }

  lemma FirstAreNearest(w: seq<Observation>, hash: nat, n: nat)
    ensures AreNearest(w, hash, n, First(S.SortBy(Candidates(w, hash), ByDistance), n))
  {
    hide S.SortBy;
    var sorted := SortedCandidates(w, hash);
    var all, found := Candidates(w, hash), First(sorted, n);
    forall i | 0 <= i < |found|
      ensures exists o :: o in w && found[i] == (o.pos, Apart(hash, o))
    {
      var j :| 0 <= j < |all| && all[j] == sorted[i];
      assert w[j] in w;
    }
    forall o | o in w
      ensures (o.pos, Apart(hash, o)) in found || forall i :: 0 <= i < |found| ==> found[i].1 <= Apart(hash, o)
    {
      var j :| 0 <= j < |w| && w[j] == o;
      assert all[j] in sorted;
      var k :| 0 <= k < |sorted| && sorted[k] == all[j];
      assert k < |found| ==> found[k] == all[j];
    }
  }

  /** The positions `find_similar_positions` returns are the nearest: no observation left out is
      nearer than one returned. */
  lemma SimilarAreNearest(w: seq<Observation>, hash: nat, n: nat, i: nat, j: nat)
    requires i < n <= j < |w|
    ensures
      var sorted := S.SortBy(Candidates(w, hash), ByDistance);
      |sorted| == |w| && First(sorted, n)[i].1 <= sorted[j].1
  {
    S.PrefixHasLeast(Candidates(w, hash), ByDistance, n, i, j);
  }

  // ----- the ring -----

  /** The last n of a history. */
  function Last<T>(s: seq<T>, n: nat): (r: seq<T>)
    ensures |r| == Min(|s|, n)
  {
    if |s| <= n then s else s[|s| - n..]
  }

  lemma LastMovesOn<T>(s: seq<T>, x: T, n: nat)
    requires n >= 1
    ensures Last(s + [x], n) == (if |s| < n then Last(s, n) else Last(s, n)[1..]) + [x]
  {
  }

  class PatternDraft {
    const hashes: array<nat>
    const tokens: array<nat>
    const positions: array<nat>
    var head: nat
    var len: nat
    const capacity: nat
    const numBits: nat
    const draftLength: nat
    ghost var history: seq<Observation>

    /** Where the logical-th oldest observation is stored. */
    function OrderedIdx(logical: nat): (r: Option<nat>)
      reads this
    {
      if logical >= len then None
      else if len < capacity then Some(logical)
      else if capacity == 0 then None
      else Some((head + logical) % capacity)
    }

    ghost predicate Shape()
      reads this
    {
      && hashes != tokens && hashes != positions && tokens != positions
      && hashes.Length == tokens.Length == positions.Length == capacity
      && len <= capacity && len == Min(|history|, capacity)
      && (if len < capacity then head == len else if capacity == 0 then head == 0 else head < capacity)
    }

    ghost predicate Valid()
      reads this, hashes, tokens, positions
    {
      && Shape()
      && forall i :: 0 <= i < len ==> Holds(Slot(i), Last(history, capacity)[i])
    }

    ghost predicate Holds(at: nat, o: Observation)
      requires Shape() && at < capacity
      reads this, hashes, tokens, positions
    {
      hashes[at] == o.hash && tokens[at] == o.token && positions[at] == o.pos
    }

    /** The slot of the i-th oldest observation, written without a remainder. */
    ghost function Slot(i: nat): (at: nat)
      requires Shape() && i < len
      reads this
      ensures at < capacity
    {
      if len < capacity then i else if head + i < capacity then head + i else head + i - capacity
    }

    lemma OrderedIdxIsSlot(logical: nat)
      requires Shape()
      ensures OrderedIdx(logical) == if logical < len then Some(Slot(logical)) else None
    {
      if logical < len == capacity {
        assert (head + logical) % capacity == Slot(logical) by {
          Remainder(head + logical, capacity);
        }
      }
    }

    constructor (bits: nat, cap: nat, draft: nat)
      ensures Valid() && history == [] && numBits == bits && capacity == cap && draftLength == draft
    {
      hashes, tokens, positions := new nat[cap](_ => 0), new nat[cap](_ => 0), new nat[cap](_ => 0);
      head, len, capacity, numBits, draftLength := 0, 0, cap, bits, draft;
      history := [];
    }

    /** Move the head to the next slot, around the ring. */
    method Advance()
      requires head < capacity
      modifies this`head, this`len
      ensures head == (if old(head) + 1 == capacity then 0 else old(head) + 1)
      ensures len == if old(len) < capacity then old(len) + 1 else old(len)
    {
      Remainder(head + 1, capacity);
      head := (head + 1) % capacity;
      if len < capacity {
        len := len + 1;
      }
    }

    /** `observe_at`; `observe` is the same at position 0. The ring then holds the latest
        `capacity` observations, in order. */
    method ObserveAt(signs: seq<bool>, token: nat, pos: nat)
      requires Valid() && capacity >= 1
      modifies this, hashes, tokens, positions
      ensures Valid() && history == old(history) + [Observation(HashOf(signs), token, pos)]
    {
      ghost var o := Observation(HashOf(signs), token, pos);
      ghost var was, h, l := Last(history, capacity), head, len;
      hashes[head], tokens[head], positions[head] := HashOf(signs), token, pos;
      Advance();
      history := history + [o];
      LastMovesOn(old(history), o, capacity);
      ghost var now := Last(history, capacity);
      forall i | 0 <= i < len
        ensures Holds(Slot(i), now[i])
      {
        if i == len - 1 {
          assert Slot(i) == h && now[i] == o;
        } else if l < capacity {
          assert now[i] == was[i] && old(Holds(Slot(i), was[i]));
        } else {
          assert now[i] == was[i + 1] && old(Holds(Slot(i + 1), was[i + 1]));
        }
      }
    }

    /** The earliest nearest of the oldest observations, if it is within the number of bits. */
    method FindBest(hash: nat, searchLen: nat) returns (best: Option<nat>, bestDist: nat)
      requires Valid() && 0 < searchLen <= len
      ensures
        var w := Last(history, capacity);
        var k := Best(w, hash, searchLen);
        if Apart(hash, w[k]) <= numBits then best == Some(k) && bestDist == Apart(hash, w[k]) else best.None?
    {
      ghost var w := Last(history, capacity);
      best, bestDist := None, numBits + 1;
      for logical := 0 to searchLen
        invariant logical == 0 ==> best.None? && bestDist == numBits + 1
        invariant logical > 0 ==>
                    var k := Best(w, hash, logical);
                    if Apart(hash, w[k]) <= numBits then best == Some(k) && bestDist == Apart(hash, w[k])
                    else best.None? && bestDist == numBits + 1
      {
        OrderedIdxIsSlot(logical);
        var storage := OrderedIdx(logical).value;
        assert Holds(storage, w[logical]);
        var dist := Distance(hash, hashes[storage], 64);
        if dist < bestDist {
          bestDist, best := dist, Some(logical);
        }
      }
    }

    method FindMatch(hash: nat) returns (r: Option<(nat, real)>)
      requires Valid()
      ensures r == MatchOf(Last(history, capacity), hash, numBits, draftLength)
    {
      if len < draftLength + 1 {
        return None;
      }
      var best, bestDist := FindBest(hash, len - draftLength);
      if best.None? {
        return None;
      }
      var conf := Confidence(bestDist, numBits);
      r := if conf.Some? then Some((best.value, conf.value)) else None;
    }

    /** `draft`. */
    method Draft(signs: seq<bool>) returns (draft: seq<nat>, confs: seq<real>)
      requires Valid()
      ensures FollowsNearest(Last(history, capacity), HashOf(signs), numBits, draftLength, draft, confs)
    {
      draft, confs := [], [];
      var found := FindMatch(HashOf(signs));
      if found.Some? {
        draft, confs := Continuation(found.value.0, found.value.1);
      }
      DraftFollowsNearest(Last(history, capacity), HashOf(signs), numBits, draftLength, draft, confs);
    }

    /** `find_similar_positions`: at most n positions, nearest first, the oldest of equals first. */
    method FindSimilar(signs: seq<bool>, n: nat) returns (found: seq<(nat, nat)>)
      requires Valid()
      ensures
        var w := Last(history, capacity);
        && found == (if |w| < 2 then [] else First(S.SortBy(Candidates(w, HashOf(signs)), ByDistance), n))
        && (|w| >= 2 ==> AreNearest(w, HashOf(signs), n, found))
    {
      if len < 2 {
        return [];
      }
      ghost var w := Last(history, capacity);
      var hash, candidates := HashOf(signs), [];
      for logical := 0 to len
        invariant |candidates| == logical && forall i :: 0 <= i < logical ==> candidates[i] == Candidates(w, hash)[i]
      {
        OrderedIdxIsSlot(logical);
        var storage := OrderedIdx(logical).value;
        assert Holds(storage, w[logical]);
        candidates := candidates + [(positions[storage], Distance(hash, hashes[storage], 64))];
      }
      assert candidates == Candidates(w, hash);
      found := First(S.SortBy(candidates, ByDistance), n);
      FirstAreNearest(w, hash, n);
    }

    /** The observed tokens after a match, each with the match's confidence. */
    method Continuation(at: nat, conf: real) returns (draft: seq<nat>, confs: seq<real>)
      requires Valid() && at + draftLength < len
      ensures |draft| == |confs| == draftLength && Follows(Last(history, capacity), at, conf, draft, confs)
    {
      draft, confs := [], [];
      for j := 0 to draftLength
        invariant |draft| == |confs| == j
        invariant forall i :: 0 <= i < j ==> draft[i] == Last(history, capacity)[at + 1 + i].token && confs[i] == conf
      {
        OrderedIdxIsSlot(at + 1 + j);
        var storage := OrderedIdx(at + 1 + j);
        assert Holds(Slot(at + 1 + j), Last(history, capacity)[at + 1 + j]);
        if storage.Some? {
          draft, confs := draft + [tokens[storage.value]], confs + [conf];
        }
      }
    }
  }
}
