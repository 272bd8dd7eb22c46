// Residency over what a zone can come to: its lists reached from the empty zone by ensures,
// importance records and resets.
module LruReach {
  import opened Common
  import opened L = LruSpec

  datatype Act = Ensures(p: nat) | Records(p: nat, weight: real) | Forgets

  ghost function After(v: View, act: Act, limit: nat): View
  {
    match act
    case Ensures(p) => Ensure(v, p, limit, true)
    case Records(p, weight) => Record(v, p, weight)
    case Forgets => Forget(v)
  }

  ghost function AfterAll(v: View, acts: seq<Act>, limit: nat): View
  {
    if acts == [] then v else After(AfterAll(v, acts[..|acts| - 1], limit), acts[|acts| - 1], limit)
  }

  const NEW_ZONE := View([], [])

  /** A zone with a cold store can come to this. */
  ghost predicate Reachable(v: View, limit: nat)
  {
    exists acts :: v == AfterAll(NEW_ZONE, acts, limit)
  }

  lemma ReachMore(v: View, act: Act, limit: nat)
    requires Reachable(v, limit)
    ensures Reachable(After(v, act, limit), limit)
  {
    var acts :| v == AfterAll(NEW_ZONE, acts, limit);
    assert (acts + [act])[..|acts|] == acts;
    assert AfterAll(NEW_ZONE, acts + [act], limit) == After(v, act, limit);
  }

  lemma {:induction false} ReachedOk(acts: seq<Act>, limit: nat)
    requires limit >= 1
    ensures Ok(AfterAll(NEW_ZONE, acts, limit)) && |AfterAll(NEW_ZONE, acts, limit).order| <= limit
    decreases |acts|
  {
    if acts != [] {
      var before, act := acts[..|acts| - 1], acts[|acts| - 1];
      ReachedOk(before, limit);
      if act.Ensures? {
        EnsureOk(AfterAll(NEW_ZONE, before, limit), act.p, limit, true);
        EnsureBound(AfterAll(NEW_ZONE, before, limit), act.p, limit);
      }
    }
  }

  // ----- the crowded zone comes about -----

  /** Pages limit - j..limit - 1 are at the front, in ascending order, and none has any importance. */
  ghost predicate Ascending(v: View, limit: nat, n: nat, j: nat)
  {
    && |v.importance| == n && (forall p :: 0 <= p < n ==> v.importance[p] == 0.0)
    && j <= |v.order| <= limit
    && forall i :: 0 <= i < j ==> v.order[i] == limit - j + i
  }

  /** With no importances, the victim is the tail. */
  lemma TailGoes(v: View)
    requires v.order != [] && forall i :: 0 <= i < |v.order| ==> ImportanceOf(v, i) == 0.0
    ensures VictimIndex(v) == |v.order| - 1
  {
    assert ImportanceOf(v, |v.order| - 1) == 0.0;
  }

  lemma AscendingStep(v: View, limit: nat, n: nat, j: nat, p: nat)
    requires j < limit <= n && p == limit - j - 1 && Ascending(v, limit, n, j)
    ensures Ascending(Ensure(v, p, limit, true), limit, n, j + 1)
  {
    if p in v.order {
      assert IndexOf(v.order, p) >= j;
    } else if |v.order| >= limit {
      TailGoes(v);
    }
    if p !in v.order {
      var m := MakeRoom(v, limit, true);
      assert j <= |m.order| && forall i :: 0 <= i < j ==> m.order[i] == v.order[i];
    }
  }

  lemma {:induction false} GrowToZero(v: View, p: nat, limit: nat)
    requires forall q :: 0 <= q < |v.importance| ==> v.importance[q] == 0.0
    ensures forall q :: 0 <= q < |GrowTo(v, p, limit, true).importance| ==>
        GrowTo(v, p, limit, true).importance[q] == 0.0
    decreases p + 1 - |v.importance|
  {
    if p >= |v.importance| {
      GrowToZero(Grow(MakeRoom(v, limit, true)), p, limit);
    }
  }

  lemma Allocated(limit: nat, n: nat) returns (v: View)
    requires 1 <= limit <= n
    ensures Reachable(v, limit) && Ascending(v, limit, n, 0)
  {
    assert AfterAll(NEW_ZONE, [], limit) == NEW_ZONE;
    ReachMore(NEW_ZONE, Ensures(n - 1), limit);
    GrowToZero(NEW_ZONE, n - 1, limit);
    EnsureHead(NEW_ZONE, n - 1, limit, true);
    EnsureBound(NEW_ZONE, n - 1, limit);
    v := Ensure(NEW_ZONE, n - 1, limit, true);
  }

  /** Allocating n pages and ensuring the first `limit` of them, last first. */
  lemma OrderReached(limit: nat, n: nat) returns (v: View)
    requires 1 <= limit <= n
    ensures Reachable(v, limit) && v == View(seq(limit, i => i), seq(n, _ => 0.0))
  {
    v := Allocated(limit, n);
    for j := 0 to limit
      invariant Ascending(v, limit, n, j) && Reachable(v, limit)
    {
      var p := limit - j - 1;
      AscendingStep(v, limit, n, j, p);
      ReachMore(v, Ensures(p), limit);
      v := Ensure(v, p, limit, true);
    }
    assert v.order == seq(limit, i => i);
    assert v.importance == seq(n, _ => 0.0);
  }

  /** The state that shows the limit to be needed is one the zone comes to in use. */
  lemma CrowdedReached(limit: nat, count: nat)
    requires limit >= 1
    ensures Reachable(Crowded(limit, count), limit)
  {
    var n := limit + count;
    var v := OrderReached(limit, n);
    for q := 0 to n
      invariant Reachable(v, limit) && v.order == Crowded(limit, count).order && |v.importance| == n
      invariant forall p :: 0 <= p < n ==> v.importance[p] == if p < q && p != limit then 1.0 else 0.0
    {
      if q != limit {
        ReachMore(v, Records(q, 1.0), limit);
        v := Record(v, q, 1.0);
      }
    }
    assert v == Crowded(limit, count);
  }

  /** From every zone that can come about, the whole range ends up hot. */
  ghost predicate AlwaysResidentInUse(count: nat, limit: nat)
  {
    forall run: seq<View>, lo: nat ::
      IsRun(run, lo, limit, true) && |run| == count + 1 && Reachable(run[0], limit) ==> Resident(run[count], lo, count)
  }

  /** Over the states a zone comes to in use, too, a range is always hot at once exactly when the
      limit leaves seven pages beside it. */
  lemma ResidencyExactInUse(count: nat, limit: nat)
    requires limit >= 1
    ensures AlwaysResidentInUse(count, limit) <==> limit >= count + 7 || count <= 1
  {
    if limit >= count + 7 || count <= 1 {
      ResidencyExact(count, limit);
      forall run: seq<View>, lo: nat | IsRun(run, lo, limit, true) && |run| == count + 1 && Reachable(run[0], limit)
        ensures Resident(run[count], lo, count)
      {
        var acts :| run[0] == AfterAll(NEW_ZONE, acts, limit);
        ReachedOk(acts, limit);
      }
    } else {
      CrowdedReached(limit, count);
      var run := RunExists(Crowded(limit, count), limit, count, limit, true);
      CrowdedRunGone(run, limit, count, count);
      assert !Resident(run[count], limit, count);
    }
  }

  // ----- without importances -----

  ghost predicate Unrecorded(v: View)
  {
    forall p :: 0 <= p < |v.importance| ==> v.importance[p] == 0.0
  }

  /** From every zone of no importances, within its limit, the whole range ends up hot. */
  ghost predicate AlwaysResidentUnrecorded(count: nat, limit: nat)
  {
    forall run: seq<View>, lo: nat ::
      IsRun(run, lo, limit, true) && |run| == count + 1 && Ok(run[0]) && |run[0].order| <= limit && Unrecorded(run[0])
      ==> Resident(run[count], lo, count)
  }

  lemma UnrecordedStep(v: View, lo: nat, k: nat, limit: nat)
    requires Fronted(v, lo, k) && Unrecorded(v) && Ok(v) && k < limit && |v.order| <= limit
    ensures
      var w := Ensure(v, lo + k, limit, true);
      Fronted(w, lo, k + 1) && Unrecorded(w) && Ok(w) && |w.order| <= limit
  {
    EnsureOk(v, lo + k, limit, true);
    EnsureBound(v, lo + k, limit);
    GrowToZero(v, lo + k, limit);
    if k == 0 {
      EnsureHead(v, lo, limit, true);
    } else {
      UnrecordedFronted(v, lo, k, limit);
    }
  }

  lemma UnrecordedFronted(v: View, lo: nat, k: nat, limit: nat)
    requires Fronted(v, lo, k) && Unrecorded(v) && Ok(v) && 1 <= k < limit && |v.order| <= limit
    ensures Fronted(Ensure(v, lo + k, limit, true), lo, k + 1)
  {
    var p, m := lo + k, MakeRoom(v, limit, true);
    if p in v.order {
      assert IndexOf(v.order, p) >= k;
    } else {
      RoomKeepsFront(v, lo, k, limit);
      if p == |v.importance| {
        assert GrowTo(v, p, limit, true) == GrowTo(Grow(m), p, limit, true) == Grow(m);
      }
    }
  }

  lemma RoomKeepsFront(v: View, lo: nat, k: nat, limit: nat)
    requires Fronted(v, lo, k) && Unrecorded(v) && Ok(v) && k < limit && |v.order| <= limit
    ensures Fronted(MakeRoom(v, limit, true), lo, k)
  {
    if |v.order| >= limit {
      TailGoes(v);
    }
  }

  lemma {:induction false} UnrecordedRun(run: seq<View>, lo: nat, limit: nat, k: nat)
    requires IsRun(run, lo, limit, true) && k < |run| && k <= limit
    requires Ok(run[0]) && |run[0].order| <= limit && Unrecorded(run[0])
    ensures Fronted(run[k], lo, k) && Unrecorded(run[k]) && Ok(run[k]) && |run[k].order| <= limit
  {
    if k > 0 {
      var j := k - 1;
      UnrecordedRun(run, lo, limit, j);
      UnrecordedStep(run[j], lo, j, limit);
      assert Steps(run, j, lo, limit, true);
    }
  }

  /** At most as many pages as the list holds can be resident. */
  lemma ResidentFew(v: View, count: nat)
    requires Ok(v) && Resident(v, 0, count)
    ensures count <= |v.order|
  {
    BelowSize(count);
    DistinctSize(v.order);
    SubsetSize(Below(count), Members(v.order));
  }

  lemma {:induction false} RunBound(run: seq<View>, lo: nat, limit: nat, k: nat)
    requires limit >= 1 && IsRun(run, lo, limit, true) && k < |run| && Ok(run[0]) && |run[0].order| <= limit
    ensures Ok(run[k]) && |run[k].order| <= limit
  {
    if k > 0 {
      var j := k - 1;
      RunBound(run, lo, limit, j);
      EnsureOk(run[j], lo + j, limit, true);
      EnsureBound(run[j], lo + j, limit);
      assert Steps(run, j, lo, limit, true);
    }
  }

  /** Where nothing records importances the list is plain LRU: a range is always hot at once
      exactly when the limit holds it. */
  lemma ResidencyUnrecorded(count: nat, limit: nat)
    requires limit >= 1
    ensures AlwaysResidentUnrecorded(count, limit) <==> limit >= count
  {
    if limit >= count {
      forall run: seq<View>, lo: nat |
        IsRun(run, lo, limit, true) && |run| == count + 1 && Ok(run[0]) && |run[0].order| <= limit && Unrecorded(run[0])
        ensures Resident(run[count], lo, count)
      {
        UnrecordedRun(run, lo, limit, count);
        FrontedResident(run[count], lo, count);
      }
    } else {
      var run := RunExists(NEW_ZONE, 0, count, limit, true);
      RunBound(run, 0, limit, count);
      if Resident(run[count], 0, count) {
        ResidentFew(run[count], count);
      }
    }
  }
}
