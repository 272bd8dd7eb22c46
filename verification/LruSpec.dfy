// What the LRU list of one cache zone holds, as a value: the hot pages from most to
// least recently used, and the attention importance of every page ever allocated.
// The cache's methods are proved against these functions; the residency theorem is
// about the functions alone.
module LruSpec {
  import opened Common

  datatype View = View(order: seq<nat>, importance: seq<real>)

  /** How many pages, counted from the LRU tail, an eviction looks at. */
  const EVICTION_WINDOW: nat := 8

  ghost predicate Ok(v: View)
  {
    && Distinct(v.order)
    && forall i :: 0 <= i < |v.order| ==> v.order[i] < |v.importance|
  }

  function ImportanceOf(v: View, i: nat): real
    requires i < |v.order|
  {
    if v.order[i] < |v.importance| then v.importance[v.order[i]] else 0.0
  }

  /** Position of the least important page of order[lo..]; the one nearest the tail wins a tie. */
  function VictimFrom(v: View, lo: nat): (b: nat)
    requires lo < |v.order|
    ensures lo <= b < |v.order|
    ensures forall i :: lo <= i < |v.order| ==> ImportanceOf(v, b) <= ImportanceOf(v, i)
    ensures forall i :: b < i < |v.order| ==> ImportanceOf(v, b) < ImportanceOf(v, i)
    decreases |v.order| - lo
  {
    if lo == |v.order| - 1 then lo
    else
      var b := VictimFrom(v, lo + 1);
      if ImportanceOf(v, lo) < ImportanceOf(v, b) then lo else b
  }

  function WindowStart(v: View): nat
  {
    if |v.order| <= EVICTION_WINDOW then 0 else |v.order| - EVICTION_WINDOW
  }

  function VictimIndex(v: View): (b: nat)
    requires v.order != []
    ensures WindowStart(v) <= b < |v.order|
  {
    VictimFrom(v, WindowStart(v))
  }

  /** One eviction, when the zone is at its limit and there is a cold store. */
  function MakeRoom(v: View, limit: nat, coldStore: bool): View
  {
    if |v.order| >= limit && coldStore && v.order != []
    then v.(order := RemoveAt(v.order, VictimIndex(v)))
    else v
  }

  /** A new page, most recently used and of no importance yet. */
  function Grow(v: View): View
  {
    View([|v.importance|] + v.order, v.importance + [0.0])
  }

  function GrowTo(v: View, p: nat, limit: nat, coldStore: bool): View
    decreases p + 1 - |v.importance|
  {
    if p < |v.importance| then v
    else GrowTo(Grow(MakeRoom(v, limit, coldStore)), p, limit, coldStore)
  }

  function PushFront(v: View, p: nat): View
  {
    v.(order := [p] + v.order)
  }

  ghost function MoveToFront(v: View, p: nat): View
    requires p in v.order
  {
    v.(order := [p] + RemoveAt(v.order, IndexOf(v.order, p)))
  }

  /** The zone after `ensure_page` on local page `p`. */
  ghost function Ensure(v: View, p: nat, limit: nat, coldStore: bool): View
  {
    if p >= |v.importance| then GrowTo(v, p, limit, coldStore)
    else if p in v.order then MoveToFront(v, p)
    else PushFront(MakeRoom(v, limit, coldStore), p)
  }

  /** `record_importance`, for a page that exists. */
  function Record(v: View, p: nat, weight: real): View
  {
    if p < |v.importance| then v.(importance := v.importance[p := v.importance[p] + weight]) else v
  }

  /** `reset_entropy`, for one zone. */
  function Forget(v: View): View
  {
    v.(importance := seq(|v.importance|, _ => 0.0))
  }

  /** run[k + 1] is the zone after `ensure_page` on page lo + k in the zone run[k]. */
  ghost predicate Steps(run: seq<View>, k: nat, lo: nat, limit: nat, coldStore: bool)
    requires k + 1 < |run|
  {
    run[k + 1] == Ensure(run[k], lo + k, limit, coldStore)
  }

  /** The zone's states through `ensure_page` on lo, lo + 1, ...: run[k] follows k calls. */
  ghost predicate IsRun(run: seq<View>, lo: nat, limit: nat, coldStore: bool)
  {
    run != [] && forall k: nat :: k + 1 < |run| ==> Steps(run, k, lo, limit, coldStore)
  }

  lemma RunAppend(run: seq<View>, lo: nat, limit: nat, coldStore: bool, next: View)
    requires IsRun(run, lo, limit, coldStore)
    requires next == Ensure(run[|run| - 1], lo + (|run| - 1), limit, coldStore)
    ensures IsRun(run + [next], lo, limit, coldStore)
  {
    var longer := run + [next];
    forall k: nat | k + 1 < |longer|
      ensures Steps(longer, k, lo, limit, coldStore)
    {
      if k + 1 < |run| {
        assert Steps(run, k, lo, limit, coldStore);
      }
    }
  }

  lemma {:induction false} RunExists(v: View, lo: nat, count: nat, limit: nat, coldStore: bool) returns (run: seq<View>)
    ensures IsRun(run, lo, limit, coldStore) && |run| == count + 1 && run[0] == v
  {
    if count == 0 {
      run := [v];
    } else {
      var shorter := RunExists(v, lo, count - 1, limit, coldStore);
      var next := Ensure(shorter[count - 1], lo + (count - 1), limit, coldStore);
      RunAppend(shorter, lo, limit, coldStore, next);
      run := shorter + [next];
    }
  }

  // ----- what every step keeps -----

  lemma MakeRoomOk(v: View, limit: nat, coldStore: bool)
    requires Ok(v)
    ensures Ok(MakeRoom(v, limit, coldStore))
  {
  }

  lemma MakeRoomMembers(v: View, limit: nat, coldStore: bool, p: nat)
    requires p in MakeRoom(v, limit, coldStore).order
    ensures p in v.order
  {
  }

  lemma {:induction false} GrowToOk(v: View, p: nat, limit: nat, coldStore: bool)
    requires Ok(v)
    ensures Ok(GrowTo(v, p, limit, coldStore))
    decreases p + 1 - |v.importance|
  {
    if p >= |v.importance| {
      MakeRoomOk(v, limit, coldStore);
      GrowToOk(Grow(MakeRoom(v, limit, coldStore)), p, limit, coldStore);
    }
  }

  /** `ensure_page` keeps the list free of repeats. */
  lemma EnsureOk(v: View, p: nat, limit: nat, coldStore: bool)
    requires Ok(v)
    ensures Ok(Ensure(v, p, limit, coldStore))
  {
    if p >= |v.importance| {
      GrowToOk(v, p, limit, coldStore);
    } else if p in v.order {
      RemoveAtMembers(v.order, IndexOf(v.order, p), p);
    } else {
      MakeRoomOk(v, limit, coldStore);
      if p in MakeRoom(v, limit, coldStore).order {
        MakeRoomMembers(v, limit, coldStore, p);
      }
    }
  }

  lemma {:induction false} GrowToHead(v: View, p: nat, limit: nat, coldStore: bool)
    ensures
      var w := GrowTo(v, p, limit, coldStore);
      && |w.importance| == Max(|v.importance|, p + 1)
      && (p >= |v.importance| ==> w.order != [] && w.order[0] == p)
    decreases p + 1 - |v.importance|
  {
    if p >= |v.importance| {
      GrowToHead(Grow(MakeRoom(v, limit, coldStore)), p, limit, coldStore);
    }
  }

  /** Ensuring a page keeps the importances of all there are; a new page has none yet. */
  lemma {:induction false} GrowToScores(v: View, p: nat, limit: nat, coldStore: bool, q: nat)
    ensures
      var w := GrowTo(v, p, limit, coldStore);
      q < |w.importance| ==> w.importance[q] == if q < |v.importance| then v.importance[q] else 0.0
    decreases p + 1 - |v.importance|
  {
    if p >= |v.importance| {
      GrowToScores(Grow(MakeRoom(v, limit, coldStore)), p, limit, coldStore, q);
    }
  }

  /** `ensure_page` leaves its page at the head, and allocates up to it. */
  lemma EnsureHead(v: View, p: nat, limit: nat, coldStore: bool)
    ensures
      var w := Ensure(v, p, limit, coldStore);
      && |w.importance| == Max(|v.importance|, p + 1)
      && w.order != [] && w.order[0] == p
  {
    GrowToHead(v, p, limit, coldStore);
  }

  /** Recognising Ensure: `ensure_page` grows or reloads as needed, to w, and then touches p. */
  lemma EnsureIs(v: View, p: nat, limit: nat, coldStore: bool, w: View, touched: View)
    requires Ok(w) && p in w.order
    requires if p >= |v.importance| then w == GrowTo(v, p, limit, coldStore)
             else if p in v.order then w == v
             else w == PushFront(MakeRoom(v, limit, coldStore), p)
    requires touched == View([p] + RemoveAt(w.order, IndexOf(w.order, p)), w.importance)
    ensures touched == Ensure(v, p, limit, coldStore)
  {
    GrowToHead(v, p, limit, coldStore);
    if p >= |v.importance| || p !in v.order {
      assert IndexOf(w.order, p) == 0;
      assert touched.order == w.order;
    }
  }

  lemma {:induction false} GrowToBound(v: View, p: nat, limit: nat)
    requires limit >= 1 && |v.order| <= limit
    ensures |GrowTo(v, p, limit, true).order| <= limit
    decreases p + 1 - |v.importance|
  {
    if p >= |v.importance| {
      GrowToBound(Grow(MakeRoom(v, limit, true)), p, limit);
    }
  }

  lemma EnsureBound(v: View, p: nat, limit: nat)
    requires limit >= 1 && |v.order| <= limit
    ensures |Ensure(v, p, limit, true).order| <= limit
  {
    GrowToBound(v, p, limit);
  }

  // ----- how many pages are hot -----

  /** With a cold store a zone keeps as many of its pages hot as the limit allows, and without one
      all of them. */
  ghost predicate Full(v: View, limit: nat, coldStore: bool)
  {
    |v.order| == if coldStore then Min(|v.importance|, limit) else |v.importance|
  }

  /** A list as long as the zone has pages holds them all. */
  lemma AllListed(v: View, p: nat)
    requires Ok(v) && |v.order| >= |v.importance| && p < |v.importance|
    ensures p in v.order
  {
    BelowSize(|v.importance|);
    DistinctSize(v.order);
    SubsetSize(Members(v.order), Below(|v.importance|));
  }

  lemma {:induction false} GrowToFull(v: View, p: nat, limit: nat, coldStore: bool)
    requires limit >= 1 && Full(v, limit, coldStore)
    ensures Full(GrowTo(v, p, limit, coldStore), limit, coldStore)
    decreases p + 1 - |v.importance|
  {
    if p >= |v.importance| {
      GrowToFull(Grow(MakeRoom(v, limit, coldStore)), p, limit, coldStore);
    }
  }

  /** `ensure_page` keeps it so. */
  lemma EnsureFull(v: View, p: nat, limit: nat, coldStore: bool)
    requires limit >= 1 && Ok(v) && Full(v, limit, coldStore)
    ensures Full(Ensure(v, p, limit, coldStore), limit, coldStore)
  {
    if p >= |v.importance| {
      GrowToFull(v, p, limit, coldStore);
    } else if p !in v.order && |v.order| >= |v.importance| {
      AllListed(v, p);
    }
  }

  /** Ensuring page p evicts nothing: no page is cold, and without a cold store or within the
      limit none has to go. */
  ghost predicate Quiet(v: View, p: nat, limit: nat, coldStore: bool)
  {
    |v.order| == |v.importance| && (coldStore ==> Max(|v.importance|, p + 1) <= limit)
  }

  /** Then pages are added in front: the last of the list stays the last. */
  lemma {:induction false} QuietGrowTo(v: View, p: nat, limit: nat, coldStore: bool)
    requires Quiet(v, p, limit, coldStore) && p >= |v.importance|
    ensures
      var w := GrowTo(v, p, limit, coldStore);
      && |w.order| == |w.importance| == p + 1
      && (v.order != [] ==> w.order[p] == v.order[|v.order| - 1])
    decreases p + 1 - |v.importance|
  {
    var w := Grow(v);
    assert MakeRoom(v, limit, coldStore) == v;
    if p >= |w.importance| {
      QuietGrowTo(w, p, limit, coldStore);
    }
  }

  // ----- residency -----

  /** The first k hot pages are lo + k - 1, ..., lo + 1, lo. */
  ghost predicate Fronted(v: View, lo: nat, k: nat)
  {
    && k <= |v.order|
    && (k > 0 ==> lo + k <= |v.importance|)
    && forall i :: 0 <= i < k ==> v.order[i] == lo + k - 1 - i
  }

  ghost predicate Resident(v: View, lo: nat, count: nat)
  {
    forall p :: lo <= p < lo + count ==> p in v.order
  }

  /** Ensuring the next page keeps the k pages in front while an eviction cannot reach them. */
  lemma FrontedStep(v: View, lo: nat, k: nat, limit: nat, coldStore: bool)
    requires Fronted(v, lo, k) && k >= 1
    requires coldStore ==> |v.order| <= limit && limit >= k + EVICTION_WINDOW
    ensures Fronted(Ensure(v, lo + k, limit, coldStore), lo, k + 1)
  {
    var p := lo + k;
    var m := MakeRoom(v, limit, coldStore);
    assert Fronted(m, lo, k);
    if p == |v.importance| {
      assert GrowTo(v, p, limit, coldStore) == GrowTo(Grow(m), p, limit, coldStore) == Grow(m);
    } else if p in v.order {
      assert IndexOf(v.order, p) >= k;
    }
  }

  /** FrontedStep, with its base case and the bound on hot pages beside it. */
  lemma FrontedNext(v: View, lo: nat, k: nat, limit: nat, coldStore: bool)
    requires Fronted(v, lo, k)
    requires coldStore ==> 1 <= limit && |v.order| <= limit && (k == 0 || limit >= k + EVICTION_WINDOW)
    ensures Fronted(Ensure(v, lo + k, limit, coldStore), lo, k + 1)
    ensures coldStore ==> |Ensure(v, lo + k, limit, coldStore).order| <= limit
  {
    if k == 0 {
      EnsureHead(v, lo, limit, coldStore);
    } else {
      FrontedStep(v, lo, k, limit, coldStore);
    }
    if coldStore {
      EnsureBound(v, lo + k, limit);
    }
  }

  /** So it does where nothing is evicted. */
  lemma QuietFronted(v: View, lo: nat, k: nat, limit: nat, coldStore: bool)
    requires Fronted(v, lo, k) && Ok(v) && Quiet(v, lo + k, limit, coldStore)
    ensures Fronted(Ensure(v, lo + k, limit, coldStore), lo, k + 1)
  {
    var p := lo + k;
    EnsureHead(v, p, limit, coldStore);
    if p >= |v.importance| {
      if k >= 1 {
        assert MakeRoom(v, limit, coldStore) == v;
        assert GrowTo(v, p, limit, coldStore) == GrowTo(Grow(v), p, limit, coldStore) == Grow(v);
      }
    } else {
      AllListed(v, p);
      assert IndexOf(v.order, p) >= k;
    }
  }

  lemma {:induction false} RunFronted(run: seq<View>, lo: nat, limit: nat, coldStore: bool, k: nat)
    requires IsRun(run, lo, limit, coldStore) && k < |run|
    requires coldStore ==> 1 <= limit && |run[0].order| <= limit && (limit >= |run| + 6 || |run| <= 2)
    ensures Fronted(run[k], lo, k)
    ensures coldStore ==> |run[k].order| <= limit
  {
    if k > 0 {
      var j := k - 1;
      RunFronted(run, lo, limit, coldStore, j);
      FrontedNext(run[j], lo, j, limit, coldStore);
      assert Steps(run, j, lo, limit, coldStore);
    }
  }

  lemma FrontedResident(v: View, lo: nat, count: nat)
    requires Fronted(v, lo, count)
    ensures Resident(v, lo, count)
  {
    forall p | lo <= p < lo + count
      ensures p in v.order
    {
      assert v.order[lo + count - 1 - p] == p;
    }
  }

  // ----- the limit is exact -----

  /** A full zone of pages 0..limit-1, and `count` cold pages after them, the first of no importance. */
  function Crowded(limit: nat, count: nat): View
  {
    View(seq(limit, i => i), seq(limit + count, p => if p == limit then 0.0 else 1.0))
  }

  /** The run from Crowded while page `limit` is still hot: k pages in front of an untouched rest. */
  ghost predicate CrowdedAt(v: View, limit: nat, count: nat, k: nat)
  {
    && |v.order| == limit && |v.importance| == limit + count
    && (forall p :: 0 <= p < limit + count ==> v.importance[p] == if p == limit then 0.0 else 1.0)
    && k <= limit && Fronted(v, limit, k)
    && (forall i :: k <= i < limit ==> v.order[i] < limit)
  }

  /** The first page of the range stays while the window has not reached it ... */
  lemma CrowdedStays(v: View, limit: nat, count: nat, k: nat, p: nat)
    requires limit >= 1 && k < count && CrowdedAt(v, limit, count, k) && p == limit + k
    requires k == 0 || k + 7 < limit
    ensures CrowdedAt(Ensure(v, p, limit, true), limit, count, k + 1)
  {
    assert p !in v.order;
  }

  /** ... and goes as soon as it has. */
  lemma CrowdedGoes(v: View, limit: nat, count: nat, k: nat, p: nat)
    requires limit >= 1 && 0 < k < count && CrowdedAt(v, limit, count, k) && p == limit + k
    requires k + 7 >= limit
    ensures limit !in Ensure(v, p, limit, true).order
    ensures |Ensure(v, p, limit, true).importance| == limit + count
  {
    assert p !in v.order;
    var b := VictimIndex(v);
    assert v.order[k - 1] == limit;
    assert ImportanceOf(v, b) <= ImportanceOf(v, k - 1) == 0.0;
    assert b == k - 1;
  }

  /** An evicted page comes back only when it is itself ensured. */
  lemma StaysCold(v: View, p: nat, q: nat, limit: nat)
    requires p < |v.importance| && q !in v.order && q != p
    ensures q !in Ensure(v, p, limit, true).order
    ensures Ensure(v, p, limit, true).importance == v.importance
  {
    if p !in v.order && q in MakeRoom(v, limit, true).order {
      MakeRoomMembers(v, limit, true, q);
    }
  }

  lemma {:induction false} CrowdedRunAt(run: seq<View>, limit: nat, count: nat, k: nat)
    requires IsRun(run, limit, limit, true) && |run| == count + 1 && CrowdedAt(run[0], limit, count, 0)
    requires 1 <= limit && k <= count && (k <= 1 || k + 6 < limit)
    ensures CrowdedAt(run[k], limit, count, k)
  {
    if k > 0 {
      var j := k - 1;
      CrowdedRunAt(run, limit, count, j);
      CrowdedStays(run[j], limit, count, j, limit + j);
      assert Steps(run, j, limit, limit, true);
    }
  }

  lemma {:induction false} CrowdedRunGone(run: seq<View>, limit: nat, count: nat, k: nat)
    requires IsRun(run, limit, limit, true) && |run| == count + 1 && CrowdedAt(run[0], limit, count, 0)
    requires 1 <= limit && k <= count && k >= 2 && k + 6 >= limit
    ensures limit !in run[k].order && |run[k].importance| == limit + count
  {
    var j := k - 1;
    if j == 1 || j + 6 < limit {
      CrowdedRunAt(run, limit, count, j);
      CrowdedGoes(run[j], limit, count, j, limit + j);
    } else {
      CrowdedRunGone(run, limit, count, j);
      StaysCold(run[j], limit + j, limit, limit);
    }
    assert Steps(run, j, limit, limit, true);
  }

  /** From every well-formed zone within its limit, the whole range ends up hot. */
  ghost predicate AlwaysResident(count: nat, limit: nat)
  {
    forall run: seq<View>, lo: nat ::
      IsRun(run, lo, limit, true) && |run| == count + 1 && Ok(run[0]) && |run[0].order| <= limit
      ==> Resident(run[count], lo, count)
  }

  /** With a cold store, a range of pages is always hot at once exactly when the limit
      leaves seven pages beside it; a single page always is. */
  lemma ResidencyExact(count: nat, limit: nat)
    requires limit >= 1
    ensures AlwaysResident(count, limit) <==> limit >= count + 7 || count <= 1
  {
    if limit >= count + 7 || count <= 1 {
      forall run: seq<View>, lo: nat |
        IsRun(run, lo, limit, true) && |run| == count + 1 && Ok(run[0]) && |run[0].order| <= limit
        ensures Resident(run[count], lo, count)
      {
        RunFronted(run, lo, limit, true, count);
        FrontedResident(run[count], lo, count);
      }
    } else {
      var run := RunExists(Crowded(limit, count), limit, count, limit, true);
      CrowdedRunGone(run, limit, count, count);
      assert Ok(run[0]);
      assert !Resident(run[count], limit, count);
    }
  }
}
