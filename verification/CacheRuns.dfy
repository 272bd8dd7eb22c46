// The cache as a value: what `ensure_page` does to a zone's list, the pages and the cold file,
// what that keeps, and when it overwrites a cold page.
module CacheRuns {
  import opened Common
  import opened CacheZones
  import opened ColdStore
  import L = LruSpec
  import S = CacheState

  // ----- one zone's steps -----

  /** Whether the cache has a cold store at all. */
  predicate HasCold(s: S.State)
  {
    |s.used| >= 1
  }

  /** One eviction, when the zone is at its limit and there is a cold store. */
  ghost function MakeRoom(s: S.State, v: L.View, sizes: seq<nat>, zi: nat, limit: nat): S.State
  {
    if |v.order| >= limit && HasCold(s) && v.order != [] && s.cursor < |s.used| then
      var victim, slot := v.order[L.VictimIndex(v)], Chosen(s.used, s.cursor);
      if S.CanEvict(s, sizes, zi, victim, slot) then S.Evict(s, sizes, zi, victim, slot) else s
    else s
  }

  ghost function GrowTo(s: S.State, v: L.View, sizes: seq<nat>, zi: nat, p: nat, limit: nat): S.State
    decreases p + 1 - |v.importance|
  {
    if p < |v.importance| then s
    else
      var t := MakeRoom(s, v, sizes, zi, limit);
      if S.HasZone(t, sizes, zi)
      then GrowTo(S.Grow(t, sizes, zi), L.Grow(L.MakeRoom(v, limit, HasCold(s))), sizes, zi, p, limit)
      else t
  }

  ghost function Reload(s: S.State, sizes: seq<nat>, zi: nat, p: nat): S.State
  {
    if S.HasZone(s, sizes, zi) && p < |s.pages[zi]| && s.pages[zi][p].Cold? && s.pages[zi][p].slot < |s.used|
    then S.Reload(s, sizes, zi, p)
    else s
  }

  /** The stored data after `ensure_page` on local page p of zone zi, whose list is v. */
  ghost function Ensure(s: S.State, v: L.View, sizes: seq<nat>, zi: nat, p: nat, limit: nat): S.State
  {
    if p >= |v.importance| then GrowTo(s, v, sizes, zi, p, limit)
    else if p in v.order then s
    else Reload(MakeRoom(s, v, sizes, zi, limit), sizes, zi, p)
  }

  // ----- what the steps keep -----

  ghost predicate HotPage(s: S.State, sizes: seq<nat>, zi: nat, p: nat)
    requires S.HasZone(s, sizes, zi) && p < |s.pages[zi]|
  {
    && s.ks[zi][p].Some? && |s.ks[zi][p].value| == sizes[zi]
    && s.vs[zi][p].Some? && |s.vs[zi][p].value| == sizes[zi]
  }

  /** The list of zone zi is its hot pages, which hold bytes; its slots lie in the file; and hot
      pages are within the limit where there is a cold store. */
  ghost predicate Fits(s: S.State, v: L.View, sizes: seq<nat>, zi: nat, limit: nat)
  {
    && S.HasZone(s, sizes, zi) && |v.importance| == |s.pages[zi]| && S.ListsHot(s, zi, v.order)
    && (forall p :: 0 <= p < |s.pages[zi]| && s.pages[zi][p].Hot? ==> HotPage(s, sizes, zi, p))
    && (forall slot: nat :: slot < |s.used| ==> SlotStart(slot, sizes[zi]) + sizes[zi] + sizes[zi] <= |s.file|)
    && (HasCold(s) ==> |v.order| <= limit && s.cursor < |s.used|)
  }

  /** A step on zone zi leaves the other zones' pages, and the sizes of file and slots, alone. */
  ghost predicate Elsewhere(s: S.State, t: S.State, zi: nat)
  {
    && |t.pages| == |s.pages| && |t.ks| == |s.ks| && |t.vs| == |s.vs|
    && (forall z :: 0 <= z < |s.pages| && z != zi ==> t.pages[z] == s.pages[z])
    && (forall z :: 0 <= z < |s.ks| && z != zi ==> t.ks[z] == s.ks[z])
    && (forall z :: 0 <= z < |s.vs| && z != zi ==> t.vs[z] == s.vs[z])
    && |t.file| == |s.file| && |t.used| == |s.used|
  }

  lemma FitsOk(s: S.State, v: L.View, sizes: seq<nat>, zi: nat, limit: nat)
    requires Fits(s, v, sizes, zi, limit)
    ensures L.Ok(v)
  {
    assert forall i :: 0 <= i < |v.order| ==> v.order[i] in v.order;
  }

  /** An eviction's list and data go together. */
  lemma EvictFits(s: S.State, v: L.View, sizes: seq<nat>, zi: nat, limit: nat, i: nat, slot: nat)
    requires Fits(s, v, sizes, zi, limit) && i < |v.order| && slot < |s.used|
    ensures S.CanEvict(s, sizes, zi, v.order[i], slot)
    ensures Fits(S.Evict(s, sizes, zi, v.order[i], slot), v.(order := RemoveAt(v.order, i)), sizes, zi, limit)
  {
    var victim := v.order[i];
    assert victim in v.order && s.pages[zi][victim].Hot? && HotPage(s, sizes, zi, victim);
    var t := S.Evict(s, sizes, zi, victim, slot);
    RemoveAtDistinct(v.order, i);
    forall p: nat
      ensures p in RemoveAt(v.order, i) <==> p in v.order && p != victim
    {
      RemoveAtMembers(v.order, i, p);
    }
    forall p | 0 <= p < |t.pages[zi]| && t.pages[zi][p].Hot?
      ensures HotPage(t, sizes, zi, p)
    {
      assert s.pages[zi][p].Hot? && HotPage(s, sizes, zi, p);
    }
  }

  /** Making room keeps everything, and overwrites a slot exactly when a page has to go and every
      slot is in use. */
  lemma MakeRoomKeeps(s: S.State, v: L.View, sizes: seq<nat>, zi: nat, limit: nat)
    requires limit >= 1 && Fits(s, v, sizes, zi, limit)
    ensures
      var t, w := MakeRoom(s, v, sizes, zi, limit), L.MakeRoom(v, limit, HasCold(s));
      && Fits(t, w, sizes, zi, limit) && S.Keeps(s, t, sizes, zi)
      && Elsewhere(s, t, zi) && (HasCold(s) ==> |w.order| < limit)
      && (!s.overwrote ==> Counts(s, t, if HasCold(s) && |v.order| >= limit then 1 else 0))
      && (S.Alone(s, zi) && t.overwrote && sizes[zi] > 0 ==> t.clobbered)
  {
    S.KeepsSame(s, sizes, zi);
    S.AllUsed(s);
    if |v.order| >= limit && HasCold(s) {
      var i, slot := L.VictimIndex(v), Chosen(s.used, s.cursor);
      ChosenIs(s.used, s.cursor);
      EvictFits(s, v, sizes, zi, limit, i, slot);
      S.EvictKeeps(s, sizes, zi, v.order[i], slot);
      var t := S.Evict(s, sizes, zi, v.order[i], slot);
      assert S.UsedSlots(t) == S.UsedSlots(s) + {slot};
      if S.Alone(s, zi) && s.used[slot] && sizes[zi] > 0 {
        S.UsedSlotClashes(s, sizes, zi, slot);
      }
    }
  }

  function InUse(s: S.State): nat
  {
    |S.UsedSlots(s)|
  }

  /** n more slots are needed: one is overwritten exactly when there are not as many free ones. */
  predicate Counts(s: S.State, t: S.State, n: nat)
  {
    (t.overwrote <==> InUse(s) + n > |s.used|) && (!t.overwrote ==> InUse(t) == InUse(s) + n)
  }

  /** Making room leaves cold pages where they are. */
  lemma MakeRoomCold(s: S.State, v: L.View, sizes: seq<nat>, zi: nat, limit: nat, p: nat)
    requires S.HasZone(s, sizes, zi) && p < |s.pages[zi]| && s.pages[zi][p].Cold?
    ensures
      var t := MakeRoom(s, v, sizes, zi, limit);
      S.HasZone(t, sizes, zi) && p < |t.pages[zi]| && t.pages[zi][p] == s.pages[zi][p] && |t.used| == |s.used|
  {
  }

  lemma GrowFits(s: S.State, v: L.View, sizes: seq<nat>, zi: nat, limit: nat)
    requires Fits(s, v, sizes, zi, limit) && (HasCold(s) ==> |v.order| < limit)
    ensures Fits(S.Grow(s, sizes, zi), L.Grow(v), sizes, zi, limit) && S.Keeps(s, S.Grow(s, sizes, zi), sizes, zi)
  {
    S.GrowKeeps(s, sizes, zi, zi);
    var t, w := S.Grow(s, sizes, zi), L.Grow(v);
    forall p | 0 <= p < |t.pages[zi]| && t.pages[zi][p].Hot?
      ensures HotPage(t, sizes, zi, p)
    {
      if p < |s.pages[zi]| {
        assert HotPage(s, sizes, zi, p);
      }
    }
    FitsOk(s, v, sizes, zi, limit);
    assert forall p :: p in w.order <==> p == |v.importance| || p in v.order;
    assert Distinct(w.order);
  }

  lemma ReloadFits(s: S.State, v: L.View, sizes: seq<nat>, zi: nat, p: nat, limit: nat)
    requires Fits(s, v, sizes, zi, limit) && (HasCold(s) ==> |v.order| < limit) && S.SlotsInRange(s)
    requires p < |s.pages[zi]| && p !in v.order
    ensures
      var t := Reload(s, sizes, zi, p);
      Fits(t, L.PushFront(v, p), sizes, zi, limit) && S.Keeps(s, t, sizes, zi)
      && Elsewhere(s, t, zi) && t.overwrote == s.overwrote
  {
    assert S.IsCold(s, zi, p);
    S.ReloadKeeps(s, sizes, zi, p);
    var t, w := S.Reload(s, sizes, zi, p), L.PushFront(v, p);
    forall r | 0 <= r < |t.pages[zi]| && t.pages[zi][r].Hot?
      ensures HotPage(t, sizes, zi, r)
    {
      if r != p {
        assert HotPage(s, sizes, zi, r);
      }
    }
    assert forall r :: r in w.order <==> r == p || r in v.order;
    assert Distinct(w.order);
  }

  /** How many of a zone's first n pages the limit makes cold. */
  function Excess(n: nat, limit: nat): nat
  {
    if n > limit then n - limit else 0
  }

  /** How many pages growing the zone up to page p evicts. */
  function Evicted(v: L.View, p: nat, limit: nat): nat
  {
    if p >= |v.importance| then Excess(p + 1, limit) - Excess(|v.importance|, limit) else 0
  }

  /** One turn of the allocation loop. */
  lemma GrownOnce(s: S.State, v: L.View, sizes: seq<nat>, zi: nat, limit: nat)
    requires limit >= 1 && Fits(s, v, sizes, zi, limit)
    ensures
      var made := MakeRoom(s, v, sizes, zi, limit);
      S.HasZone(made, sizes, zi) &&
      var t, w := S.Grow(made, sizes, zi), L.Grow(L.MakeRoom(v, limit, HasCold(s)));
      && Fits(t, w, sizes, zi, limit) && S.Keeps(s, t, sizes, zi) && Elsewhere(s, t, zi)
      && (!s.overwrote ==> Counts(s, t, if HasCold(s) && |v.order| >= limit then 1 else 0))
      && (S.Alone(s, zi) && t.overwrote && sizes[zi] > 0 ==> t.clobbered)
  {
    MakeRoomKeeps(s, v, sizes, zi, limit);
    var s1, v1 := MakeRoom(s, v, sizes, zi, limit), L.MakeRoom(v, limit, HasCold(s));
    GrowFits(s1, v1, sizes, zi, limit);
    S.KeepsTransitive(s, s1, S.Grow(s1, sizes, zi), sizes, zi);
    assert InUse(S.Grow(s1, sizes, zi)) == InUse(s1);
  }

  lemma {:induction false} GrowToKeeps(s: S.State, v: L.View, sizes: seq<nat>, zi: nat, p: nat, limit: nat)
    requires limit >= 1 && Fits(s, v, sizes, zi, limit)
    ensures
      var t, w := GrowTo(s, v, sizes, zi, p, limit), L.GrowTo(v, p, limit, HasCold(s));
      && Fits(t, w, sizes, zi, limit) && S.Keeps(s, t, sizes, zi) && Elsewhere(s, t, zi)
      && (S.Alone(s, zi) && t.overwrote && sizes[zi] > 0 ==> t.clobbered)
    decreases p + 1 - |v.importance|
  {
    S.KeepsSame(s, sizes, zi);
    if p >= |v.importance| {
      GrownOnce(s, v, sizes, zi, limit);
      var t, w := S.Grow(MakeRoom(s, v, sizes, zi, limit), sizes, zi), L.Grow(L.MakeRoom(v, limit, HasCold(s)));
      GrowToKeeps(t, w, sizes, zi, p, limit);
      S.KeepsTransitive(s, t, GrowTo(t, w, sizes, zi, p, limit), sizes, zi);
    }
  }

  lemma {:induction false} GrowToCounts(s: S.State, v: L.View, sizes: seq<nat>, zi: nat, p: nat, limit: nat)
    requires limit >= 1 && Fits(s, v, sizes, zi, limit) && !s.overwrote && L.Full(v, limit, HasCold(s))
    ensures Counts(s, GrowTo(s, v, sizes, zi, p, limit), if HasCold(s) then Evicted(v, p, limit) else 0)
    decreases p + 1 - |v.importance|
  {
    S.AllUsed(s);
    if p >= |v.importance| {
      GrownOnce(s, v, sizes, zi, limit);
      var t, w := S.Grow(MakeRoom(s, v, sizes, zi, limit), sizes, zi), L.Grow(L.MakeRoom(v, limit, HasCold(s)));
      if t.overwrote {
        GrowToKeeps(t, w, sizes, zi, p, limit);
      } else {
        GrowToCounts(t, w, sizes, zi, p, limit);
      }
    }
  }

  /** Ensuring this page needs a slot beyond the cold store's, where so many are in use: for the
      pages that growing evicts, or for the one that goes before a cold page's slot is freed. */
  predicate Overfull(v: L.View, p: nat, limit: nat, coldCapacity: nat, inUse: nat)
  {
    && coldCapacity >= 1
    && if p >= |v.importance| then inUse + Evicted(v, p, limit) > coldCapacity
       else p !in v.order && inUse >= coldCapacity
  }

  /** What `ensure_page` keeps: all invariants; all bytes unless an eviction clobbered them. It
      overwrites a slot exactly when overfull. */
  lemma EnsureKeeps(s: S.State, v: L.View, sizes: seq<nat>, zi: nat, p: nat, limit: nat)
    requires limit >= 1 && Fits(s, v, sizes, zi, limit) && S.SlotsInRange(s)
    ensures
      var t, w := Ensure(s, v, sizes, zi, p, limit), L.Ensure(v, p, limit, HasCold(s));
      && Fits(t, w, sizes, zi, limit) && S.Keeps(s, t, sizes, zi) && Elsewhere(s, t, zi)
      && (!s.overwrote && L.Full(v, limit, HasCold(s)) ==>
            (t.overwrote <==> Overfull(v, p, limit, |s.used|, InUse(s))))
      && (S.Alone(s, zi) && t.overwrote && sizes[zi] > 0 ==> t.clobbered)
  {
    S.KeepsSame(s, sizes, zi);
    S.AllUsed(s);
    if p >= |v.importance| {
      GrowToKeeps(s, v, sizes, zi, p, limit);
      if !s.overwrote && L.Full(v, limit, HasCold(s)) {
        GrowToCounts(s, v, sizes, zi, p, limit);
      }
    } else if p in v.order {
      MovedFits(s, v, sizes, zi, p, limit);
    } else {
      ReloadedKeeps(s, v, sizes, zi, p, limit);
    }
  }

  lemma ReloadedKeeps(s: S.State, v: L.View, sizes: seq<nat>, zi: nat, p: nat, limit: nat)
    requires limit >= 1 && Fits(s, v, sizes, zi, limit) && S.SlotsInRange(s)
    requires p < |v.importance| && p !in v.order
    ensures
      var made := MakeRoom(s, v, sizes, zi, limit);
      var t, w := Reload(made, sizes, zi, p), L.PushFront(L.MakeRoom(v, limit, HasCold(s)), p);
      && Fits(t, w, sizes, zi, limit) && S.Keeps(s, t, sizes, zi) && Elsewhere(s, t, zi)
      && (!s.overwrote && L.Full(v, limit, HasCold(s)) ==> (t.overwrote <==> HasCold(s) && InUse(s) >= |s.used|))
      && (S.Alone(s, zi) && t.overwrote && sizes[zi] > 0 ==> t.clobbered)
  {
    MakeRoomKeeps(s, v, sizes, zi, limit);
    var s1, v1 := MakeRoom(s, v, sizes, zi, limit), L.MakeRoom(v, limit, HasCold(s));
    if p in v1.order {
      L.MakeRoomMembers(v, limit, HasCold(s), p);
    }
    FitsOk(s, v, sizes, zi, limit);
    if |v.order| >= |v.importance| {
      L.AllListed(v, p);
    }
    ReloadFits(s1, v1, sizes, zi, p, limit);
    S.KeepsTransitive(s, s1, Reload(s1, sizes, zi, p), sizes, zi);
  }

  lemma MovedFits(s: S.State, v: L.View, sizes: seq<nat>, zi: nat, p: nat, limit: nat)
    requires Fits(s, v, sizes, zi, limit) && p in v.order
    ensures Fits(s, L.MoveToFront(v, p), sizes, zi, limit)
  {
    var i := IndexOf(v.order, p);
    RemoveAtDistinct(v.order, i);
    forall q: nat
      ensures q in L.MoveToFront(v, p).order <==> q in v.order
    {
      RemoveAtMembers(v.order, i, q);
    }
  }

  // ----- steps that evict nothing -----

  predicate SameSlots(s: S.State, t: S.State)
  {
    && t.file == s.file && t.used == s.used && t.cursor == s.cursor && t.owner == s.owner
    && t.overwrote == s.overwrote && t.clobbered == s.clobbered
  }

  lemma {:induction false} QuietGrows(s: S.State, v: L.View, sizes: seq<nat>, z: nat, p: nat, limit: nat, zi: nat)
    requires S.HasZone(s, sizes, z) && L.Quiet(v, p, limit, HasCold(s))
    ensures
      var t := GrowTo(s, v, sizes, z, p, limit);
      SameSlots(s, t) && S.Keeps(s, t, sizes, zi) && S.HasZone(t, sizes, z)
    decreases p + 1 - |v.importance|
  {
    S.KeepsSame(s, sizes, zi);
    if p >= |v.importance| {
      var s1, v1 := S.Grow(s, sizes, z), L.Grow(v);
      assert MakeRoom(s, v, sizes, z, limit) == s && L.MakeRoom(v, limit, HasCold(s)) == v;
      S.GrowKeeps(s, sizes, z, zi);
      QuietGrows(s1, v1, sizes, z, p, limit, zi);
      S.KeepsTransitive(s, s1, GrowTo(s1, v1, sizes, z, p, limit), sizes, zi);
    }
  }

  /** A zone that evicts nothing leaves slots and cold file alone, whichever zone zi has the cold pages. */
  lemma QuietKeeps(s: S.State, v: L.View, sizes: seq<nat>, z: nat, p: nat, limit: nat, zi: nat)
    requires Fits(s, v, sizes, z, limit) && L.Quiet(v, p, limit, HasCold(s))
    ensures
      var t := Ensure(s, v, sizes, z, p, limit);
      SameSlots(s, t) && S.Keeps(s, t, sizes, zi)
  {
    if p >= |v.importance| {
      QuietGrows(s, v, sizes, z, p, limit, zi);
    } else {
      FitsOk(s, v, sizes, z, limit);
      L.AllListed(v, p);
      S.KeepsSame(s, sizes, zi);
    }
  }

  /** Other bytes of the right size in a hot page change nothing else. */
  lemma WriteFits(s: S.State, v: L.View, sizes: seq<nat>, zi: nat, p: nat, k: seq<Byte>, b: seq<Byte>, z: nat,
                  limit: nat)
    requires S.HasZone(s, sizes, zi) && Fits(s, v, sizes, z, limit)
    requires p < |s.pages[zi]| && s.pages[zi][p].Hot? && |k| == |b| == sizes[zi]
    ensures Fits(S.Write(s, zi, p, k, b), v, sizes, z, limit)
  {
    var t := S.Write(s, zi, p, k, b);
    forall q | 0 <= q < |t.pages[z]| && t.pages[z][q].Hot?
      ensures HotPage(t, sizes, z, q)
    {
      assert HotPage(s, sizes, z, q);
    }
  }
}
