// The stored data of the cache as a value: page states and buffers of the three zones,
// the cold file and its slots; and what an eviction, a reload and a new page do to it.
module CacheState {
  import opened Common
  import opened CacheZones
  import opened ColdStore

  type Page = Option<seq<Byte>>
  type PageBytes = (seq<Byte>, seq<Byte>)

  datatype State = State(
    pages: seq<seq<PageState>>,            // by zone and local page id
    ks: seq<seq<Page>>,
    vs: seq<seq<Page>>,
    file: seq<Byte>,
    used: seq<bool>,
    cursor: nat,
    owner: map<nat, (nat, nat)>,           // zone and page last stored in each slot still in use
    overwrote: bool,                       // some eviction found every slot used
    clobbered: bool)                       // some eviction wrote over bytes of another cold page

  /** Zone zi is one of the zones, and its per-page lists have one length. */
  ghost predicate HasZone(s: State, sizes: seq<nat>, zi: nat)
  {
    && |s.pages| == |s.ks| == |s.vs| == |sizes| && zi < |sizes|
    && |s.pages[zi]| == |s.ks[zi]| == |s.vs[zi]|
  }

  ghost predicate IsCold(s: State, z: nat, p: nat)
  {
    z < |s.pages| && p < |s.pages[z]| && s.pages[z][p].Cold?
  }

  // ----- slots -----

  ghost predicate SlotsInRange(s: State)
  {
    forall z: nat, p: nat :: IsCold(s, z, p) ==> s.pages[z][p].slot < |s.used|
  }

  /** Cold pages own pairwise distinct slots, and exactly those are marked used. */
  ghost predicate SlotsExact(s: State)
  {
    && (forall i: nat :: i in s.owner <==> i < |s.used| && s.used[i])
    && (forall i: nat :: i in s.owner ==>
          IsCold(s, s.owner[i].0, s.owner[i].1) && s.pages[s.owner[i].0][s.owner[i].1].slot == i)
    && (forall z: nat, p: nat :: IsCold(s, z, p) ==>
          s.pages[z][p].slot in s.owner && s.owner[s.pages[z][p].slot] == (z, p))
  }

  /** The cold pages of a zone whose list holds `order`. */
  ghost function ColdPages(s: State, zi: nat, order: seq<nat>): set<nat>
    requires zi < |s.pages|
  {
    set p: nat | 0 <= p < |s.pages[zi]| && p !in order
  }

  ghost predicate ListsHot(s: State, zi: nat, order: seq<nat>)
    requires zi < |s.pages|
  {
    && Distinct(order)
    && (forall p :: p in order ==> p < |s.pages[zi]|)
    && (forall p :: 0 <= p < |s.pages[zi]| ==> (s.pages[zi][p].Hot? <==> p in order))
  }

  lemma ColdPagesSize(s: State, zi: nat, order: seq<nat>)
    requires zi < |s.pages| && ListsHot(s, zi, order)
    ensures |ColdPages(s, zi, order)| == |s.pages[zi]| - |order|
  {
    BelowSize(|s.pages[zi]|);
    DistinctSize(order);
    var cold, hot := ColdPages(s, zi, order), Members(order);
    assert cold !! hot && Below(|s.pages[zi]|) == cold + hot;
  }

  function UsedSlots(s: State): set<nat>
  {
    set i: nat | 0 <= i < |s.used| && s.used[i]
  }

  /** The cold pages of one zone, with their zone. */
  ghost function ColdIn(s: State, z: nat): set<(nat, nat)>
    requires z < |s.pages|
  {
    set p: nat | 0 <= p < |s.pages[z]| && s.pages[z][p].Cold? :: (z, p)
  }

  lemma ColdInSize(s: State, z: nat, order: seq<nat>)
    requires z < |s.pages| && ListsHot(s, z, order)
    ensures |ColdIn(s, z)| == |s.pages[z]| - |order|
  {
    var pairs := map p: nat | p in ColdPages(s, z, order) :: (z, p);
    InjectiveSize(pairs);
    ColdPagesSize(s, z, order);
    assert pairs.Keys == ColdPages(s, z, order);
    assert pairs.Values == ColdIn(s, z) by {
      forall c | c in ColdIn(s, z)
        ensures c in pairs.Values
      {
        assert pairs[c.1] == c;
      }
    }
  }

  /** The zones' lists hold their hot pages. */
  ghost predicate AllListed(s: State, orders: seq<seq<nat>>)
  {
    |s.pages| == |orders| == 3 && forall z :: 0 <= z < 3 ==> ListsHot(s, z, orders[z])
  }

  function ColdCount(s: State, orders: seq<seq<nat>>): int
    requires |s.pages| == |orders| == 3
  {
    |s.pages[0]| - |orders[0]| + |s.pages[1]| - |orders[1]| + |s.pages[2]| - |orders[2]|
  }

  /** Every cold page owns one slot in use. */
  lemma OwnersAre(s: State)
    requires SlotsExact(s) && |s.pages| == 3
    ensures |UsedSlots(s)| == |ColdIn(s, 0) + ColdIn(s, 1) + ColdIn(s, 2)|
  {
    var owned, cold := s.owner.Values, ColdIn(s, 0) + ColdIn(s, 1) + ColdIn(s, 2);
    forall x | x in cold
      ensures x in owned
    {
      assert IsCold(s, x.0, x.1) && s.pages[x.0][x.1].slot in s.owner;
    }
    forall x | x in owned
      ensures x in cold
    {
      var i :| i in s.owner && s.owner[i] == x;
      OwnerCold(s, i);
    }
    assert owned == cold && s.owner.Keys == UsedSlots(s);
    OwnersDiffer(s);
    InjectiveSize(s.owner);
  }

  lemma OwnerCold(s: State, i: nat)
    requires SlotsExact(s) && |s.pages| == 3 && i in s.owner
    ensures s.owner[i] in ColdIn(s, 0) + ColdIn(s, 1) + ColdIn(s, 2)
  {
    var (z, p) := s.owner[i];
    assert IsCold(s, z, p) && (z, p) in ColdIn(s, z);
  }

  lemma OwnersDiffer(s: State)
    requires SlotsExact(s)
    ensures forall i, j :: i in s.owner && j in s.owner && s.owner[i] == s.owner[j] ==> i == j
  {
  }

  /** Slots in use are as many as cold pages, whatever zones those are in. */
  lemma UsedSlotsSize(s: State, orders: seq<seq<nat>>)
    requires AllListed(s, orders) && SlotsExact(s)
    ensures |UsedSlots(s)| == ColdCount(s, orders)
  {
    var a, b, c := ColdIn(s, 0), ColdIn(s, 1), ColdIn(s, 2);
    OwnersAre(s);
    assert a !! b && (a + b) !! c && |a + b + c| == |a + b| + |c| == |a| + |b| + |c|;
    ColdInSize(s, 0, orders[0]);
    ColdInSize(s, 1, orders[1]);
    ColdInSize(s, 2, orders[2]);
  }

  /** While slots are exact, cold pages are no more than slots, and all slots are used exactly
      when they are as many. */
  lemma AllUsedExact(s: State, orders: seq<seq<nat>>)
    requires AllListed(s, orders) && SlotsExact(s)
    ensures ColdCount(s, orders) <= |s.used|
    ensures (forall i :: 0 <= i < |s.used| ==> s.used[i]) <==> ColdCount(s, orders) == |s.used|
  {
    UsedSlotsSize(s, orders);
    AllUsed(s);
  }

  lemma AllUsed(s: State)
    ensures |UsedSlots(s)| <= |s.used|
    ensures (forall i :: 0 <= i < |s.used| ==> s.used[i]) <==> |UsedSlots(s)| == |s.used|
  {
    BelowSize(|s.used|);
    SubsetSize(UsedSlots(s), Below(|s.used|));
    if forall i :: 0 <= i < |s.used| ==> s.used[i] {
      assert UsedSlots(s) == Below(|s.used|);
    } else {
      var i :| 0 <= i < |s.used| && !s.used[i];
      assert i in Below(|s.used|) && i !in UsedSlots(s);
    }
  }

  ghost predicate SharesSlot(s: State)
  {
    exists z: nat, p: nat, w: nat, r: nat ::
      IsCold(s, z, p) && IsCold(s, w, r) && (z, p) != (w, r) && s.pages[z][p] == s.pages[w][r]
  }

  /** What SlotsExact says in terms of pages and flags alone. */
  lemma SlotsExactMeans(s: State)
    requires SlotsExact(s)
    ensures !SharesSlot(s)
    ensures forall i: nat :: i < |s.used| ==>
        (s.used[i] <==> exists z: nat, p: nat :: IsCold(s, z, p) && s.pages[z][p].slot == i)
  {
    forall i: nat | i < |s.used|
      ensures s.used[i] <==> exists z: nat, p: nat :: IsCold(s, z, p) && s.pages[z][p].slot == i
    {
      if s.used[i] {
        assert IsCold(s, s.owner[i].0, s.owner[i].1);
      }
    }
  }

  ghost predicate SlotsOk(s: State)
  {
    SlotsInRange(s) && (!s.overwrote ==> SlotsExact(s))
  }

  // ----- bytes -----

  /** The K and V bytes of a page, wherever they are. */
  function BytesAt(state: PageState, k: Page, v: Page, file: seq<Byte>, q: nat): PageBytes
  {
    match state
    case Hot => if k.Some? && v.Some? then (k.value, v.value) else ([], [])
    case Cold(slot) => (ReadAt(file, SlotStart(slot, q), q), ReadAt(file, SlotStart(slot, q) + q, q))
  }

  /** The bytes of all pages of one zone. */
  function ZoneBytes(pages: seq<PageState>, ks: seq<Page>, vs: seq<Page>, file: seq<Byte>, q: nat): (r: seq<PageBytes>)
    ensures |ks| == |vs| == |pages| ==> |r| == |pages|
  {
    if |ks| == |vs| == |pages|
    then seq(|pages|, p requires 0 <= p < |pages| => BytesAt(pages[p], ks[p], vs[p], file, q))
    else []
  }

  function BytesOf(s: State, sizes: seq<nat>, z: nat): seq<PageBytes>
  {
    if z < |s.pages| && z < |s.ks| && z < |s.vs| && z < |sizes|
    then ZoneBytes(s.pages[z], s.ks[z], s.vs[z], s.file, sizes[z])
    else []
  }

  function ZeroPage(q: nat): seq<Byte>
  {
    seq(q, _ => 0)
  }

  /** Every page there was holds the bytes it held, and the pages added since are zero. */
  ghost predicate BytesKept(s: State, t: State, sizes: seq<nat>, z: nat)
    requires z < |sizes|
  {
    var b, c := BytesOf(s, sizes, z), BytesOf(t, sizes, z);
    && |b| <= |c|
    && (forall p :: 0 <= p < |b| ==> c[p] == b[p])
    && (forall p :: |b| <= p < |c| ==> c[p] == (ZeroPage(sizes[z]), ZeroPage(sizes[z])))
  }

  ghost predicate ColdOnlyIn(s: State, zi: nat)
  {
    forall z: nat, p: nat :: IsCold(s, z, p) ==> z == zi
  }

  /** What every step keeps: exact slots, and all bytes unless some eviction clobbered them. */
  ghost predicate KeepsBytes(s: State, t: State, sizes: seq<nat>)
  {
    && (SlotsOk(s) ==> SlotsOk(t))
    && (s.overwrote ==> t.overwrote)
    && (s.clobbered ==> t.clobbered)
    && (!t.clobbered ==> forall z :: 0 <= z < |sizes| ==> BytesKept(s, t, sizes, z))
  }

  /** Zone zi alone has cold pages, and no slot has been overwritten. */
  ghost predicate Alone(s: State, zi: nat)
  {
    SlotsOk(s) && !s.overwrote && ColdOnlyIn(s, zi)
  }

  /** What a step on zone zi keeps: while zone zi alone has cold pages and no slot is
      overwritten, nothing is clobbered, and all bytes are kept. */
  ghost predicate Keeps(s: State, t: State, sizes: seq<nat>, zi: nat)
  {
    && KeepsBytes(s, t, sizes)
    && (ColdOnlyIn(s, zi) ==> ColdOnlyIn(t, zi))
    && (Alone(s, zi) && !t.overwrote ==>
          t.clobbered == s.clobbered && forall z :: 0 <= z < |sizes| ==> BytesKept(s, t, sizes, z))
  }

  lemma KeepsSame(s: State, sizes: seq<nat>, zi: nat)
    ensures Keeps(s, s, sizes, zi)
  {
  }

  lemma KeepsBytesTransitive(s: State, t: State, u: State, sizes: seq<nat>)
    requires KeepsBytes(s, t, sizes) && KeepsBytes(t, u, sizes)
    ensures KeepsBytes(s, u, sizes)
  {
    if !u.clobbered {
      forall z | 0 <= z < |sizes|
        ensures BytesKept(s, u, sizes, z)
      {
        assert BytesKept(s, t, sizes, z) && BytesKept(t, u, sizes, z);
      }
    }
  }

  lemma KeepsTransitive(s: State, t: State, u: State, sizes: seq<nat>, zi: nat)
    requires Keeps(s, t, sizes, zi) && Keeps(t, u, sizes, zi)
    ensures Keeps(s, u, sizes, zi)
  {
    KeepsBytesTransitive(s, t, u, sizes);
    if Alone(s, zi) && !u.overwrote {
      forall z | 0 <= z < |sizes|
        ensures BytesKept(s, u, sizes, z)
      {
        assert BytesKept(s, t, sizes, z) && BytesKept(t, u, sizes, z);
      }
    }
  }

  // ----- eviction -----

  /** Whether writing `slot` with zone-zi-sized pages meets the bytes of some cold page. */
  ghost predicate Clashes(s: State, sizes: seq<nat>, zi: nat, slot: nat)
  {
    exists z: nat, p: nat ::
      && IsCold(s, z, p) && z < |sizes| && zi < |sizes|
      && !SlotsDisjoint(slot, sizes[zi], s.pages[z][p].slot, sizes[z])
  }

  /** The cold store's share of an eviction: the bytes written, the slot marked, the cursor moved on. */
  ghost function Store(s: State, sizes: seq<nat>, zi: nat, page: nat, slot: nat, k: seq<Byte>, v: seq<Byte>): State
    requires zi < |sizes| && slot < |s.used|
  {
    s.(file := WriteAt(s.file, SlotStart(slot, sizes[zi]), k + v),
       used := s.used[slot := true],
       cursor := (slot + 1) % |s.used|,
       owner := s.owner[slot := (zi, page)],
       overwrote := s.overwrote || s.used[slot],
       clobbered := s.clobbered || Clashes(s, sizes, zi, slot))
  }

  /** The next search goes on after the slot just written, and comes to it last. */
  lemma StoreMovesOn(s: State, sizes: seq<nat>, zi: nat, page: nat, slot: nat, k: seq<Byte>, v: seq<Byte>)
    requires zi < |sizes| && slot < |s.used|
    ensures
      var t := Store(s, sizes, zi, page, slot, k, v);
      t.cursor < |t.used| == |s.used| && Round(t.cursor, |t.used| - 1, |t.used|) == slot
  {
    var n := |s.used|;
    Remainder(slot + 1, n);
    Remainder((if slot + 1 < n then slot + 1 else 0) + (n - 1), n);
  }

  /** Recognising Store from what changed. */
  lemma StoreIs(s: State, t: State, sizes: seq<nat>, zi: nat, page: nat, slot: nat, k: seq<Byte>, v: seq<Byte>)
    requires zi < |sizes| && slot < |s.used|
    requires t.pages == s.pages && t.ks == s.ks && t.vs == s.vs
    requires t.file == WriteAt(s.file, SlotStart(slot, sizes[zi]), k + v)
    requires t.used == s.used[slot := true] && t.cursor == (slot + 1) % |s.used| &&
        t.owner == s.owner[slot := (zi, page)]
    requires t.overwrote == (s.overwrote || s.used[slot]) && t.clobbered == (s.clobbered || Clashes(s, sizes, zi, slot))
    ensures t == Store(s, sizes, zi, page, slot, k, v)
  {
  }

  /** Hot page `page` of zone zi goes to `slot`. */
  ghost function Evict(s: State, sizes: seq<nat>, zi: nat, page: nat, slot: nat): State
    requires HasZone(s, sizes, zi) && page < |s.pages[zi]| && s.ks[zi][page].Some? && s.vs[zi][page].Some?
    requires slot < |s.used|
  {
    Store(s, sizes, zi, page, slot, s.ks[zi][page].value, s.vs[zi][page].value)
      .(pages := s.pages[zi := s.pages[zi][page := Cold(slot)]],
        ks := s.ks[zi := s.ks[zi][page := None]],
        vs := s.vs[zi := s.vs[zi][page := None]])
  }

  /** Recognising Evict from its two halves. */
  lemma EvictIs(s: State, mid: State, t: State, sizes: seq<nat>, zi: nat, page: nat, slot: nat)
    requires HasZone(s, sizes, zi) && page < |s.pages[zi]| && s.ks[zi][page].Some? && s.vs[zi][page].Some?
    requires slot < |s.used|
    requires mid == Store(s, sizes, zi, page, slot, s.ks[zi][page].value, s.vs[zi][page].value)
    requires t == mid.(pages := t.pages, ks := t.ks, vs := t.vs)
    requires t.pages == s.pages[zi := s.pages[zi][page := Cold(slot)]]
    requires t.ks == s.ks[zi := s.ks[zi][page := None]] && t.vs == s.vs[zi := s.vs[zi][page := None]]
    ensures t == Evict(s, sizes, zi, page, slot)
  {
  }

  /** The page evicted is hot, its buffers are zone-sized, and the slot lies in the file. */
  ghost predicate CanEvict(s: State, sizes: seq<nat>, zi: nat, page: nat, slot: nat)
  {
    && HasZone(s, sizes, zi) && page < |s.pages[zi]| && s.pages[zi][page].Hot? && slot < |s.used|
    && s.ks[zi][page].Some? && |s.ks[zi][page].value| == sizes[zi]
    && s.vs[zi][page].Some? && |s.vs[zi][page].value| == sizes[zi]
    && SlotStart(slot, sizes[zi]) + sizes[zi] + sizes[zi] <= |s.file|
  }

  /** An eviction into a free slot keeps the slots exact; into a used one it gives two cold pages one slot. */
  lemma EvictSlots(s: State, sizes: seq<nat>, zi: nat, page: nat, slot: nat)
    requires CanEvict(s, sizes, zi, page, slot) && SlotsExact(s)
    ensures !s.used[slot] ==> SlotsExact(Evict(s, sizes, zi, page, slot))
    ensures s.used[slot] ==> SharesSlot(Evict(s, sizes, zi, page, slot))
  {
    var t := Evict(s, sizes, zi, page, slot);
    if s.used[slot] {
      var (w, r) := s.owner[slot];
      assert IsCold(s, w, r);
      assert IsCold(t, w, r) && IsCold(t, zi, page);
    }
  }

  lemma EvictInRange(s: State, sizes: seq<nat>, zi: nat, page: nat, slot: nat)
    requires CanEvict(s, sizes, zi, page, slot) && SlotsInRange(s)
    ensures SlotsInRange(Evict(s, sizes, zi, page, slot))
  {
    var t := Evict(s, sizes, zi, page, slot);
    forall z: nat, p: nat | IsCold(t, z, p)
      ensures t.pages[z][p].slot < |t.used|
    {
      assert (z == zi && p == page) || IsCold(s, z, p);
    }
  }

  /** A free slot meets no other page while one zone alone has cold pages. */
  lemma FreeSlotInOneZone(s: State, sizes: seq<nat>, zi: nat, slot: nat)
    requires SlotsExact(s) && ColdOnlyIn(s, zi) && slot < |s.used| && !s.used[slot]
    ensures !Clashes(s, sizes, zi, slot)
  {
    forall z: nat, p: nat | IsCold(s, z, p) && z < |sizes| && zi < |sizes|
      ensures SlotsDisjoint(slot, sizes[zi], s.pages[z][p].slot, sizes[z])
    {
      SameZoneDisjoint(slot, s.pages[z][p].slot, sizes[zi]);
    }
  }

  /** A used slot is met by the page that owns it. */
  lemma UsedSlotClashes(s: State, sizes: seq<nat>, zi: nat, slot: nat)
    requires SlotsExact(s) && ColdOnlyIn(s, zi) && zi < |sizes| && sizes[zi] > 0 && slot < |s.used| && s.used[slot]
    ensures Clashes(s, sizes, zi, slot)
  {
    var (z, p) := s.owner[slot];
    assert IsCold(s, z, p) && !SlotsDisjoint(slot, sizes[zi], s.pages[z][p].slot, sizes[z]);
  }

  /** An eviction that clashes with no cold page changes no page's bytes, in any zone. */
  lemma EvictBytes(s: State, sizes: seq<nat>, zi: nat, page: nat, slot: nat, z: nat)
    requires CanEvict(s, sizes, zi, page, slot) && z < |sizes|
    requires !Clashes(s, sizes, zi, slot)
    ensures BytesOf(Evict(s, sizes, zi, page, slot), sizes, z) == BytesOf(s, sizes, z)
  {
    var t := Evict(s, sizes, zi, page, slot);
    var k, v := s.ks[zi][page].value, s.vs[zi][page].value;
    var start := SlotStart(slot, sizes[zi]);
    if |s.pages[z]| == |s.ks[z]| == |s.vs[z]| {
      forall p | 0 <= p < |s.pages[z]|
        ensures BytesAt(t.pages[z][p], t.ks[z][p], t.vs[z][p], t.file, sizes[z])
             == BytesAt(s.pages[z][p], s.ks[z][p], s.vs[z][p], s.file, sizes[z])
      {
        if z == zi && p == page {
          ReadWritten(s.file, start, k, v);
        } else if IsCold(s, z, p) {
          assert SlotsDisjoint(slot, sizes[zi], s.pages[z][p].slot, sizes[z]);
          ReadElsewhere(s.file, start, k + v, SlotStart(s.pages[z][p].slot, sizes[z]), sizes[z]);
          ReadElsewhere(s.file, start, k + v, SlotStart(s.pages[z][p].slot, sizes[z]) + sizes[z], sizes[z]);
        }
      }
    }
  }

  /** The cold pages' slots lie within the file. */
  ghost predicate SlotsInFile(s: State, sizes: seq<nat>)
  {
    forall z: nat, p: nat :: IsCold(s, z, p) && z < |sizes| ==>
        SlotStart(s.pages[z][p].slot, sizes[z]) + sizes[z] + sizes[z] <= |s.file|
  }

  /** The same pages in the same places, with other bytes. */
  ghost predicate SameShape(s: State, r: State)
  {
    && r.pages == s.pages && r.used == s.used && |r.file| == |s.file|
    && |r.ks| == |s.ks| && |r.vs| == |s.vs|
    && (forall z :: 0 <= z < |s.ks| ==> |r.ks[z]| == |s.ks[z]|)
    && (forall z :: 0 <= z < |s.vs| ==> |r.vs[z]| == |s.vs[z]|)
  }

  /** Evicting this page to this slot loses no bytes, whatever all the pages hold. */
  ghost predicate NeverLoses(s: State, sizes: seq<nat>, zi: nat, page: nat, slot: nat)
  {
    forall r: State, z: nat :: SameShape(s, r) && CanEvict(r, sizes, zi, page, slot) && z < |sizes| ==>
      BytesOf(Evict(r, sizes, zi, page, slot), sizes, z) == BytesOf(r, sizes, z)
  }

  /** An eviction keeps all bytes for all contents exactly when it meets no cold page's bytes. */
  lemma EvictBytesExact(s: State, sizes: seq<nat>, zi: nat, page: nat, slot: nat)
    requires CanEvict(s, sizes, zi, page, slot) && SlotsInFile(s, sizes)
    requires forall z :: 0 <= z < |sizes| ==> HasZone(s, sizes, z)
    ensures NeverLoses(s, sizes, zi, page, slot) <==> !Clashes(s, sizes, zi, slot)
  {
    if Clashes(s, sizes, zi, slot) {
      var z: nat, p: nat :|
        && IsCold(s, z, p) && z < |sizes| && zi < |sizes|
        && !SlotsDisjoint(slot, sizes[zi], s.pages[z][p].slot, sizes[z]);
      ClashLoses(s, sizes, zi, page, slot, z, p);
    } else {
      forall r: State, z: nat | SameShape(s, r) && CanEvict(r, sizes, zi, page, slot) && z < |sizes|
        ensures BytesOf(Evict(r, sizes, zi, page, slot), sizes, z) == BytesOf(r, sizes, z)
      {
        assert !Clashes(r, sizes, zi, slot);
        EvictBytes(r, sizes, zi, page, slot, z);
      }
    }
  }

  /** Where ranges meet, a page of ones evicted over a file of zeros shows. */
  lemma ClashLoses(s: State, sizes: seq<nat>, zi: nat, page: nat, slot: nat, z: nat, p: nat)
    requires CanEvict(s, sizes, zi, page, slot) && SlotsInFile(s, sizes)
    requires z < |sizes| && HasZone(s, sizes, z) && IsCold(s, z, p)
    requires !SlotsDisjoint(slot, sizes[zi], s.pages[z][p].slot, sizes[z])
    ensures !NeverLoses(s, sizes, zi, page, slot)
  {
    var r := WithOnes(s, sizes, zi, page);
    var t := Evict(r, sizes, zi, page, slot);
    assert BytesOf(t, sizes, z)[p] != BytesOf(r, sizes, z)[p] by {
      OnesEvicted(s, sizes, zi, page, slot, z, p);
    }
  }

  /** The same cache with a page of ones to evict over a file of zeros. */
  ghost function WithOnes(s: State, sizes: seq<nat>, zi: nat, page: nat): State
    requires HasZone(s, sizes, zi) && page < |s.pages[zi]|
  {
    var ones := Some(seq(sizes[zi], _ => 1));
    s.(file := seq(|s.file|, _ => 0), ks := s.ks[zi := s.ks[zi][page := ones]],
       vs := s.vs[zi := s.vs[zi][page := ones]])
  }

  lemma OnesEvicted(s: State, sizes: seq<nat>, zi: nat, page: nat, slot: nat, z: nat, p: nat)
    requires CanEvict(s, sizes, zi, page, slot) && SlotsInFile(s, sizes)
    requires z < |sizes| && HasZone(s, sizes, z) && IsCold(s, z, p)
    requires !SlotsDisjoint(slot, sizes[zi], s.pages[z][p].slot, sizes[z])
    ensures
      var r := WithOnes(s, sizes, zi, page);
      && CanEvict(r, sizes, zi, page, slot)
      && p < |BytesOf(r, sizes, z)| && p < |BytesOf(Evict(r, sizes, zi, page, slot), sizes, z)|
      && BytesOf(Evict(r, sizes, zi, page, slot), sizes, z)[p] != BytesOf(r, sizes, z)[p]
  {
    var r := WithOnes(s, sizes, zi, page);
    var t, ones := Evict(r, sizes, zi, page, slot), r.ks[zi][page].value;
    assert t.file == WriteAt(r.file, SlotStart(slot, sizes[zi]), ones + ones);
    OnesShow(r.file, SlotStart(slot, sizes[zi]), ones, SlotStart(s.pages[z][p].slot, sizes[z]), sizes[z]);
    assert HasZone(t, sizes, z) && IsCold(t, z, p) && t.pages[z][p] == s.pages[z][p];
    ColdBytes(r, sizes, z, p);
    ColdBytes(t, sizes, z, p);
  }

  /** A cold page's bytes are what its slot holds. */
  lemma ColdBytes(s: State, sizes: seq<nat>, z: nat, p: nat)
    requires HasZone(s, sizes, z) && IsCold(s, z, p)
    ensures
      var at := SlotStart(s.pages[z][p].slot, sizes[z]);
      && p < |BytesOf(s, sizes, z)|
      && BytesOf(s, sizes, z)[p] == (ReadAt(s.file, at, sizes[z]), ReadAt(s.file, at + sizes[z], sizes[z]))
  {
  }

  /** Ones written over zeros are read wherever the two ranges meet. */
  lemma OnesShow(file: seq<Byte>, start: nat, ones: seq<Byte>, other: nat, q: nat)
    requires (forall i :: 0 <= i < |file| ==> file[i] == 0) && forall i :: 0 <= i < |ones| ==> ones[i] == 1
    requires !Disjoint(start, |ones| * 2, other, q * 2) && start + |ones| + |ones| <= |file| && other + q + q <= |file|
    ensures
      var now := WriteAt(file, start, ones + ones);
      (ReadAt(file, other, q), ReadAt(file, other + q, q)) != (ReadAt(now, other, q), ReadAt(now, other + q, q))
  {
    var now, at := WriteAt(file, start, ones + ones), Max(start, other);
    assert now[at] == 1 && file[at] == 0;
    PairDiffers(file, now, other, q, at);
  }

  /** Files that differ within a slot differ in the pages read from it. */
  lemma PairDiffers(file: seq<Byte>, changed: seq<Byte>, start: nat, q: nat, at: nat)
    requires start <= at < start + q + q <= |file| == |changed| && file[at] != changed[at]
    ensures (ReadAt(file, start, q), ReadAt(file, start + q, q))
         != (ReadAt(changed, start, q), ReadAt(changed, start + q, q))
  {
    if at < start + q {
      assert ReadAt(file, start, q)[at - start] != ReadAt(changed, start, q)[at - start];
    } else {
      assert ReadAt(file, start + q, q)[at - start - q] != ReadAt(changed, start + q, q)[at - start - q];
    }
  }

  lemma EvictKeeps(s: State, sizes: seq<nat>, zi: nat, page: nat, slot: nat)
    requires CanEvict(s, sizes, zi, page, slot)
    ensures Keeps(s, Evict(s, sizes, zi, page, slot), sizes, zi)
  {
    var t := Evict(s, sizes, zi, page, slot);
    if SlotsOk(s) {
      EvictInRange(s, sizes, zi, page, slot);
      if !t.overwrote {
        EvictSlots(s, sizes, zi, page, slot);
      }
    }
    if !t.clobbered {
      forall z | 0 <= z < |sizes|
        ensures BytesKept(s, t, sizes, z)
      {
        EvictBytes(s, sizes, zi, page, slot, z);
      }
    }
    if ColdOnlyIn(s, zi) {
      forall z: nat, p: nat | IsCold(t, z, p)
        ensures z == zi
      {
        assert (z == zi && p == page) || IsCold(s, z, p);
      }
    }
    if Alone(s, zi) && !t.overwrote {
      FreeSlotInOneZone(s, sizes, zi, slot);
      forall z | 0 <= z < |sizes|
        ensures BytesKept(s, t, sizes, z)
      {
        EvictBytes(s, sizes, zi, page, slot, z);
      }
    }
  }

  // ----- reload -----

  /** Cold page `page` of zone zi comes back with the bytes its slot holds, freeing the slot. */
  ghost function Reload(s: State, sizes: seq<nat>, zi: nat, page: nat): State
    requires HasZone(s, sizes, zi) && page < |s.pages[zi]| && s.pages[zi][page].Cold?
    requires s.pages[zi][page].slot < |s.used|
  {
    var slot := s.pages[zi][page].slot;
    var b := BytesAt(s.pages[zi][page], s.ks[zi][page], s.vs[zi][page], s.file, sizes[zi]);
    s.(pages := s.pages[zi := s.pages[zi][page := Hot]],
       ks := s.ks[zi := s.ks[zi][page := Some(b.0)]],
       vs := s.vs[zi := s.vs[zi][page := Some(b.1)]],
       used := s.used[slot := false],
       owner := s.owner - {slot})
  }

  /** Recognising Reload from what changed. */
  lemma ReloadIs(s: State, t: State, sizes: seq<nat>, zi: nat, page: nat, k: seq<Byte>, v: seq<Byte>)
    requires HasZone(s, sizes, zi) && page < |s.pages[zi]| && s.pages[zi][page].Cold?
    requires s.pages[zi][page].slot < |s.used|
    requires (k, v) == BytesAt(s.pages[zi][page], s.ks[zi][page], s.vs[zi][page], s.file, sizes[zi])
    requires t.pages == s.pages[zi := s.pages[zi][page := Hot]]
    requires t.ks == s.ks[zi := s.ks[zi][page := Some(k)]] && t.vs == s.vs[zi := s.vs[zi][page := Some(v)]]
    requires t.used == s.used[s.pages[zi][page].slot := false] && t.owner == s.owner - {s.pages[zi][page].slot}
    requires t.file == s.file && t.cursor == s.cursor && t.overwrote == s.overwrote && t.clobbered == s.clobbered
    ensures t == Reload(s, sizes, zi, page)
  {
  }

  lemma ReloadKeeps(s: State, sizes: seq<nat>, zi: nat, page: nat)
    requires HasZone(s, sizes, zi) && page < |s.pages[zi]| && s.pages[zi][page].Cold?
    requires s.pages[zi][page].slot < |s.used|
    ensures Keeps(s, Reload(s, sizes, zi, page), sizes, zi)
  {
    var t := Reload(s, sizes, zi, page);
    assert forall z: nat, p: nat :: IsCold(t, z, p) <==> IsCold(s, z, p) && (z, p) != (zi, page);
    forall z | 0 <= z < |sizes|
      ensures BytesKept(s, t, sizes, z)
    {
      if |s.pages[z]| == |s.ks[z]| == |s.vs[z]| {
        forall p | 0 <= p < |s.pages[z]|
          ensures BytesAt(t.pages[z][p], t.ks[z][p], t.vs[z][p], t.file, sizes[z])
               == BytesAt(s.pages[z][p], s.ks[z][p], s.vs[z][p], s.file, sizes[z])
        {
        }
      }
    }
  }

  // ----- a new page -----

  function Grow(s: State, sizes: seq<nat>, zi: nat): State
    requires zi < |s.pages| && zi < |s.ks| && zi < |s.vs| && zi < |sizes|
  {
    s.(pages := s.pages[zi := s.pages[zi] + [Hot]],
       ks := s.ks[zi := s.ks[zi] + [Some(ZeroPage(sizes[zi]))]],
       vs := s.vs[zi := s.vs[zi] + [Some(ZeroPage(sizes[zi]))]])
  }

  /** A new page keeps everything, whichever zone `alone` has the cold pages. */
  lemma GrowKeeps(s: State, sizes: seq<nat>, zi: nat, alone: nat)
    requires HasZone(s, sizes, zi)
    ensures Keeps(s, Grow(s, sizes, zi), sizes, alone)
  {
    var t := Grow(s, sizes, zi);
    assert forall z: nat, p: nat :: IsCold(t, z, p) <==> IsCold(s, z, p);
    forall z | 0 <= z < |sizes|
      ensures BytesKept(s, t, sizes, z)
    {
      if |s.pages[z]| == |s.ks[z]| == |s.vs[z]| {
        forall p | 0 <= p < |s.pages[z]|
          ensures BytesAt(t.pages[z][p], t.ks[z][p], t.vs[z][p], t.file, sizes[z])
               == BytesAt(s.pages[z][p], s.ks[z][p], s.vs[z][p], s.file, sizes[z])
        {
        }
      }
    }
  }

  // ----- a page's bytes, and writing a hot page -----

  /** The K and V bytes of a page: zero until it is allocated. */
  function PageAt(s: State, sizes: seq<nat>, z: nat, p: nat): PageBytes
    requires z < |sizes|
  {
    var b := BytesOf(s, sizes, z);
    if p < |b| then b[p] else (ZeroPage(sizes[z]), ZeroPage(sizes[z]))
  }

  lemma BytesKeptMeans(s: State, t: State, sizes: seq<nat>, z: nat, p: nat)
    requires z < |sizes| && BytesKept(s, t, sizes, z)
    ensures PageAt(t, sizes, z, p) == PageAt(s, sizes, z, p)
  {
  }

  /** Hot page `page` of zone zi gets other bytes. */
  function Write(s: State, zi: nat, page: nat, k: seq<Byte>, v: seq<Byte>): State
    requires zi < |s.ks| && zi < |s.vs| && page < |s.ks[zi]| && page < |s.vs[zi]|
  {
    s.(ks := s.ks[zi := s.ks[zi][page := Some(k)]], vs := s.vs[zi := s.vs[zi][page := Some(v)]])
  }

  /** Only that page changes. */
  lemma WriteBytes(s: State, sizes: seq<nat>, zi: nat, page: nat, k: seq<Byte>, v: seq<Byte>, z: nat, p: nat)
    requires HasZone(s, sizes, zi) && page < |s.pages[zi]| && s.pages[zi][page].Hot? && z < |sizes|
    ensures PageAt(Write(s, zi, page, k, v), sizes, z, p)
         == if z == zi && p == page then (k, v) else PageAt(s, sizes, z, p)
  {
    var t := Write(s, zi, page, k, v);
    if |s.pages[z]| == |s.ks[z]| == |s.vs[z]| && p < |s.pages[z]| {
      assert BytesAt(t.pages[z][p], t.ks[z][p], t.vs[z][p], t.file, sizes[z])
          == if z == zi && p == page then (k, v) else BytesAt(s.pages[z][p], s.ks[z][p], s.vs[z][p], s.file, sizes[z]);
    }
  }

  lemma WriteSlots(s: State, zi: nat, page: nat, k: seq<Byte>, v: seq<Byte>)
    requires zi < |s.ks| && zi < |s.vs| && page < |s.ks[zi]| && page < |s.vs[zi]|
    ensures
      var t := Write(s, zi, page, k, v);
      && (SlotsOk(t) <==> SlotsOk(s)) && forall z :: ColdOnlyIn(t, z) <==> ColdOnlyIn(s, z)
  {
    var t := Write(s, zi, page, k, v);
    assert forall z: nat, p: nat :: IsCold(t, z, p) <==> IsCold(s, z, p);
  }
}
