// The tiered paged KV cache: three zones of pages in RAM, one cold file behind them.
module KvCache {
  import opened Common
  import opened CacheZones
  import opened ColdStore
  import opened KvQuant
  import C = CacheRuns
  import CC = CacheCopies
  import K = KvPages
  import L = LruSpec
  import M = MixedRadix
  import P = Paging
  import R = CacheSaves
  import S = CacheState
  import V = KvCopies

  lemma ThreeUpdated<T>(a: seq<T>, b: seq<T>, zi: nat)
    requires |a| == |b| == 3 && zi < 3
    requires zi != 0 ==> a[0] == b[0]
    requires zi != 1 ==> a[1] == b[1]
    requires zi != 2 ==> a[2] == b[2]
    ensures b == a[zi := b[zi]]
  {
  }

  /** The k pages from lo on are the first of the zone's list, and have FP32 copies. */
  ghost predicate Ready(v: L.View, f32: seq<Option<Copies>>, lo: nat, k: nat)
  {
    L.Fronted(v, lo, k) && forall q :: lo <= q < lo + k ==> q < |f32| && f32[q].Some?
  }

  /** Ensuring page lo + k leaves the k pages before it: the limit leaves a full eviction window
      beside them, or nothing is evicted. */
  ghost predicate Leaves(v: L.View, lo: nat, k: nat, limit: nat, coldStore: bool)
  {
    || (coldStore ==> 1 <= limit && |v.order| <= limit && (k == 0 || limit >= k + L.EVICTION_WINDOW))
    || (L.Ok(v) && L.Quiet(v, lo + k, limit, coldStore))
  }

  /** Page p has copies, and every other page still hot has the ones it had. */
  ghost predicate KeptBut(order: seq<nat>, before: seq<Option<Copies>>, after: seq<Option<Copies>>, p: nat)
  {
    && |before| <= |after| && p < |after| && after[p].Some?
    && forall q :: q in order && q < |before| && q != p ==> after[q] == before[q]
  }

  lemma ReadyNext(v: L.View, f32: seq<Option<Copies>>, lo: nat, k: nat, limit: nat, coldStore: bool,
                  p: nat, w: L.View, done: seq<Option<Copies>>)
    requires Ready(v, f32, lo, k) && Leaves(v, lo, k, limit, coldStore)
    requires p == lo + k && w == L.Ensure(v, p, limit, coldStore) && KeptBut(w.order, f32, done, p)
    ensures Ready(w, done, lo, k + 1)
  {
    if L.Ok(v) && L.Quiet(v, lo + k, limit, coldStore) {
      L.QuietFronted(v, lo, k, limit, coldStore);
    } else {
      L.FrontedNext(v, lo, k, limit, coldStore);
    }
    L.FrontedResident(w, lo, k + 1);
  }

  /** Over one more page, too. */
  lemma KeptOn(v: L.View, before: seq<Option<Copies>>, mid: seq<Option<Copies>>, after: seq<Option<Copies>>,
               limit: nat, coldStore: bool)
    requires CC.Kept(v.order, before, mid) && |mid| == |v.importance|
    requires CC.Kept(L.Grow(L.MakeRoom(v, limit, coldStore)).order, mid, after)
    requires forall q :: 0 <= q < |after| && q !in L.Grow(L.MakeRoom(v, limit, coldStore)).order ==> after[q].None?
    ensures CC.Kept(L.Grow(L.MakeRoom(v, limit, coldStore)).order, before, after)
  {
    forall q | q in L.Grow(L.MakeRoom(v, limit, coldStore)).order && q < |v.importance|
      ensures q in v.order
    {
      L.MakeRoomMembers(v, limit, coldStore, q);
    }
    forall q: nat | |before| <= q < |after|
      ensures after[q].None?
    {
      if q < |mid| {
        assert mid[q].None?;
      }
    }
  }

  lemma KeptGrown(v: L.View, before: seq<Option<Copies>>, mid: seq<Option<Copies>>)
    requires CC.Kept(v.order, before, mid) && |v.importance| == |mid| == |before|
    ensures CC.Kept(L.Grow(v).order, before, mid + [None])
  {
  }

  lemma KeptThen(order: seq<nat>, before: seq<Option<Copies>>, mid: seq<Option<Copies>>, after: seq<Option<Copies>>,
                 p: nat)
    requires CC.Kept(order, before, mid) && p < |mid| == |after| && after == mid[p := after[p]] && after[p].Some?
    ensures KeptBut(order, before, after, p)
  {
  }

  /** What the loop over a flat range starts from and is to keep: the cache before, the zones with
      room for the range, and the bounds within which zone zi has room to spare. */
  datatype Goal = Goal(a: CC.Seen, rooms: seq<bool>, start: nat, end: nat, half: Half, roomy: bool, ns: R.Bounds,
                       zi: nat)

  /** `build_zones`. */
  method NewZones() returns (zones: seq<CacheZone>)
    ensures |zones| == 3 && zones[0] != zones[1] && zones[0] != zones[2] && zones[1] != zones[2]
    ensures forall z :: 0 <= z < 3 ==> fresh(zones[z]) && NoPages(zones[z])
  {
    var z0 := new CacheZone();
    var z1 := new CacheZone();
    var z2 := new CacheZone();
    zones := [z0, z1, z2];
  }

  ghost predicate NoPages(zone: CacheZone)
    reads zone
  {
    && zone.Valid(0) && zone.order == [] && zone.pageState == [] && zone.kQ4Pages == [] && zone.vQ4Pages == []
    && zone.f32Pages == [] && zone.importance == []
  }

  class PagedKVCache {
    const zones: seq<CacheZone>
    const q4PageSizes: seq<nat>
    const ramPageLimit: nat
    const coldCapacity: nat
    const maxSeqLen: nat
    const numLayers: nat
    const numKvHeads: nat
    const headDim: nat
    var coldFile: Option<seq<Byte>>
    var coldSlotUsed: seq<bool>
    var coldWriteCursor: nat

    ghost var slotOwner: map<nat, (nat, nat)>
    ghost var overwrote: bool
    ghost var clobbered: bool

    ghost predicate Shape()
    {
      && |zones| == 3 && |q4PageSizes| == 3 && ramPageLimit >= 1
      && zones[0] != zones[1] && zones[0] != zones[2] && zones[1] != zones[2]
    }

    /** The cold file is sized for the largest zone. */
    function LargestPage(): nat
      requires |q4PageSizes| == 3
    {
      Max(q4PageSizes[0], Max(q4PageSizes[1], q4PageSizes[2]))
    }

    ghost predicate ColdOk()
      requires Shape()
      reads this
    {
      match coldFile
      case None => coldSlotUsed == [] && coldWriteCursor == 0 && slotOwner == map[]
      case Some(file) =>
        && coldCapacity >= 1 && |coldSlotUsed| == coldCapacity && coldWriteCursor < coldCapacity
        && |file| == SlotStart(coldCapacity, LargestPage())
    }

    /** The stored data, the cold file being all zero and all free until it is created. */
    ghost function State(): S.State
      requires Shape()
      reads this, zones
    {
      S.State([zones[0].pageState, zones[1].pageState, zones[2].pageState],
              [zones[0].kQ4Pages, zones[1].kQ4Pages, zones[2].kQ4Pages],
              [zones[0].vQ4Pages, zones[1].vQ4Pages, zones[2].vQ4Pages],
              if coldFile.Some? then coldFile.value else seq(SlotStart(coldCapacity, LargestPage()), _ => 0),
              if coldFile.Some? then coldSlotUsed else seq(coldCapacity, _ => false),
              coldWriteCursor, slotOwner, overwrote, clobbered)
    }

    ghost predicate ZoneOk(z: nat)
      requires Shape() && z < 3
      reads this, zones
    {
      && zones[z].Valid(q4PageSizes[z])
      && (coldCapacity >= 1 ==> zones[z].hotCount <= ramPageLimit)
      && (coldFile.None? ==> forall p :: 0 <= p < |zones[z].pageState| ==> zones[z].pageState[p].Hot?)
    }

    function Cfg(): R.Config
      requires |q4PageSizes| == 3
    {
      R.Layout(numLayers, numKvHeads, headDim, maxSeqLen, ramPageLimit, coldCapacity, q4PageSizes)
    }

    /** The cache as a value. */
    ghost function Value(): R.Cache
      requires Shape()
      reads this, zones
    {
      R.Cache(State(), [zones[0].View(), zones[1].View(), zones[2].View()])
    }

    /** The pages' FP32 copies. */
    ghost function F32(): CC.F32Pages
      requires Shape()
      reads zones
    {
      [zones[0].f32Pages, zones[1].f32Pages, zones[2].f32Pages]
    }

    /** The cache with its copies as a value. */
    ghost function Now(): CC.Seen
      requires Shape()
      reads this, zones
    {
      CC.Seen(Value(), F32())
    }

    ghost predicate Valid()
      reads this, zones
    {
      && Shape() && ColdOk() && ZoneOk(0) && ZoneOk(1) && ZoneOk(2)
      && R.WF(Cfg(), Value()) && CC.CopiesOk(Cfg(), F32())
    }

    constructor (layers: nat, heads: nat, seqLen: nat, dim: nat, limit: nat, capacity: nat)
      requires limit >= 1
      ensures Valid() && Now() == CC.Seen(R.Empty(Cfg()), [[], [], []])
      ensures numLayers == layers && numKvHeads == heads && headDim == dim
      ensures ramPageLimit == limit && coldCapacity == capacity && maxSeqLen == seqLen
      ensures forall z :: 0 <= z < 3 ==> zones[z].pageState == [] && fresh(zones[z])
    {
      var empty := NewZones();
      zones := empty;
      q4PageSizes := R.PageSizes(layers, heads, dim);
      numLayers, numKvHeads, headDim := layers, heads, dim;
      ramPageLimit, coldCapacity, maxSeqLen := limit, capacity, seqLen;
      coldFile, coldSlotUsed, coldWriteCursor := None, [], 0;
      slotOwner, overwrote, clobbered := map[], false, false;
      new;
      NewIsEmpty();
    }

    /** Without pages and cold file the cache is the empty one. */
    lemma NewIsEmpty()
      requires Shape() && NoPages(zones[0]) && NoPages(zones[1]) && NoPages(zones[2])
      requires q4PageSizes == R.PageSizes(numLayers, numKvHeads, headDim)
      requires coldFile == None && coldSlotUsed == [] && coldWriteCursor == 0
      requires slotOwner == map[] && !overwrote && !clobbered
      ensures Valid() && Now() == CC.Seen(R.Empty(Cfg()), [[], [], []])
    {
      assert State() == R.Empty(Cfg()).s;
      R.EmptyOk(Cfg());
      assert ZoneOk(0) && ZoneOk(1) && ZoneOk(2);
    }

    /** `init_cold_file`: a file of zeros with all slots free, if there is none yet. */
    method InitColdFile()
      requires Shape() && ColdOk() && coldCapacity >= 1
      modifies this`coldFile, this`coldSlotUsed, this`coldWriteCursor
      ensures ColdOk() && coldFile.Some? && State() == old(State())
    {
      if coldFile.None? {
        coldFile := Some(seq(SlotStart(coldCapacity, LargestPage()), _ => 0));
        coldSlotUsed := seq(coldCapacity, _ => false);
        coldWriteCursor := 0;
      }
    }

    /** Write a page's bytes into the slot an eviction chooses, and mark the slot. */
    method StoreCold(zi: nat, page: nat, k: seq<Byte>, v: seq<Byte>) returns (slot: nat)
      requires Shape() && ColdOk() && zi < 3 && coldCapacity >= 1 && |k| == |v| == q4PageSizes[zi]
      modifies this`coldFile, this`coldSlotUsed, this`coldWriteCursor, this`slotOwner, this`overwrote, this`clobbered
      ensures ColdOk() && coldFile.Some? && slot < coldCapacity
      ensures
        var s := old(State());
        && |s.used| == coldCapacity && s.cursor < |s.used| && slot == Chosen(s.used, s.cursor)
        && SlotStart(slot, q4PageSizes[zi]) + |k| + |v| <= |s.file|
        && State() == S.Store(s, q4PageSizes, zi, page, slot, k, v)
    {
      InitColdFile();
      slot := ChooseSlot(coldSlotUsed, coldWriteCursor);
      SlotFits(slot, coldCapacity, q4PageSizes[zi], LargestPage());
      coldFile := Some(WriteAt(coldFile.value, SlotStart(slot, q4PageSizes[zi]), k + v));
      overwrote := overwrote || coldSlotUsed[slot];
      clobbered := clobbered || S.Clashes(old(State()), q4PageSizes, zi, slot);
      coldSlotUsed := coldSlotUsed[slot := true];
      coldWriteCursor := (slot + 1) % coldCapacity;
      slotOwner := slotOwner[slot := (zi, page)];
      S.StoreIs(old(State()), State(), q4PageSizes, zi, page, slot, k, v);
    }

    /** Move one page of the zone to the cold file. */
    method EvictOnePage(zi: nat) returns (ghost victim: nat)
      requires Shape() && ColdOk() && zi < 3 && ZoneOk(zi) && zones[zi].order != [] && coldCapacity >= 1
      modifies this`coldFile, this`coldSlotUsed, this`coldWriteCursor, this`slotOwner, this`overwrote, this`clobbered
      modifies zones[zi]
      ensures ColdOk() && coldFile.Some? && ZoneOk(zi)
      ensures victim == old(zones[zi].order[L.VictimIndex(zones[zi].View())])
      ensures zones[zi].View() ==
          old(L.View(RemoveAt(zones[zi].order, L.VictimIndex(zones[zi].View())), zones[zi].importance))
      ensures victim < old(|zones[zi].f32Pages|) && zones[zi].f32Pages == old(zones[zi].f32Pages)[victim := None]
      ensures victim !in zones[zi].order
      ensures
        var s := old(State());
        && s.cursor < |s.used| && S.CanEvict(s, q4PageSizes, zi, victim, Chosen(s.used, s.cursor))
        && State() == S.Evict(s, q4PageSizes, zi, victim, Chosen(s.used, s.cursor))
    {
      var page := zones[zi].PickVictim();
      victim := page;
      assert IndexOf(zones[zi].order, page) == L.VictimIndex(zones[zi].View());
      var slot := StoreCold(zi, page, zones[zi].kQ4Pages[page].value, zones[zi].vQ4Pages[page].value);
      ghost var was, mid := old(State()), State();
      zones[zi].Evict(page, slot, q4PageSizes[zi]);
      ghost var now := State();
      ThreeUpdated(was.pages, now.pages, zi);
      ThreeUpdated(was.ks, now.ks, zi);
      ThreeUpdated(was.vs, now.vs, zi);
      S.EvictIs(was, mid, now, q4PageSizes, zi, page, slot);
    }

    /** Evict one page of a zone that is at its limit, when there is a cold store to take it. */
    method MakeRoom(zi: nat)
      requires Shape() && ColdOk() && zi < 3 && ZoneOk(zi)
      modifies this`coldFile, this`coldSlotUsed, this`coldWriteCursor, this`slotOwner, this`overwrote, this`clobbered
      modifies zones[zi]
      ensures ColdOk() && ZoneOk(zi) && (old(coldFile.Some?) ==> coldFile.Some?)
      ensures coldCapacity >= 1 ==> zones[zi].hotCount < ramPageLimit
      ensures zones[zi].View() == L.MakeRoom(old(zones[zi].View()), ramPageLimit, coldCapacity >= 1)
      ensures State() == C.MakeRoom(old(State()), old(zones[zi].View()), q4PageSizes, zi, ramPageLimit)
      ensures CC.Kept(zones[zi].order, old(zones[zi].f32Pages), zones[zi].f32Pages)
      ensures |zones[zi].f32Pages| == old(|zones[zi].f32Pages|)
    {
      if zones[zi].hotCount >= ramPageLimit && coldCapacity >= 1 {
        ghost var victim := EvictOnePage(zi);
      }
    }

    /** A new zeroed page of the zone, most recently used. */
    method AllocHotPage(zi: nat)
      requires Shape() && ColdOk() && zi < 3 && ZoneOk(zi)
      requires coldCapacity >= 1 ==> zones[zi].hotCount < ramPageLimit
      modifies zones[zi]
      ensures ZoneOk(zi)
      ensures zones[zi].View() == L.Grow(old(zones[zi].View()))
      ensures State() == S.Grow(old(State()), q4PageSizes, zi)
      ensures zones[zi].f32Pages == old(zones[zi].f32Pages) + [None]
    {
      var p := zones[zi].AllocHotPage(q4PageSizes[zi]);
      ghost var was, now := old(State()), State();
      ThreeUpdated(was.pages, now.pages, zi);
      ThreeUpdated(was.ks, now.ks, zi);
      ThreeUpdated(was.vs, now.vs, zi);
    }

    /** The bytes of a slot, which is freed. */
    method TakeSlot(zi: nat, slot: nat) returns (k: seq<Byte>, v: seq<Byte>)
      requires Shape() && ColdOk() && zi < 3 && coldFile.Some? && slot < |coldSlotUsed|
      modifies this`coldSlotUsed, this`slotOwner
      ensures ColdOk() && |k| == |v| == q4PageSizes[zi]
      ensures (k, v) == S.BytesAt(Cold(slot), None, None, old(State()).file, q4PageSizes[zi])
      ensures State() == old(State()).(used := old(State()).used[slot := false], owner := old(State()).owner - {slot})
    {
      var q := q4PageSizes[zi];
      SlotFits(slot, coldCapacity, q, LargestPage());
      k, v := ReadAt(coldFile.value, SlotStart(slot, q), q), ReadAt(coldFile.value, SlotStart(slot, q) + q, q);
      coldSlotUsed := coldSlotUsed[slot := false];
      slotOwner := slotOwner - {slot};
    }

    /** A cold page gets these bytes back; nothing but its zone changes. */
    method PutBack(zi: nat, p: nat, k: seq<Byte>, v: seq<Byte>)
      requires Shape() && zi < 3 && ZoneOk(zi) && |k| == |v| == q4PageSizes[zi]
      requires coldCapacity >= 1 ==> zones[zi].hotCount < ramPageLimit
      requires p < |zones[zi].pageState| && zones[zi].pageState[p].Cold?
      modifies zones[zi]
      ensures ZoneOk(zi) && zones[zi].View() == L.PushFront(old(zones[zi].View()), p)
      ensures
        var s := old(State());
        && p < |s.pages[zi]| == |s.ks[zi]| == |s.vs[zi]|
        && State() == s.(pages := s.pages[zi := s.pages[zi][p := Hot]], ks := s.ks[zi := s.ks[zi][p := Some(k)]],
                         vs := s.vs[zi := s.vs[zi][p := Some(v)]])
      ensures zones[zi].f32Pages == old(zones[zi].f32Pages)
    {
      ghost var s := State();
      zones[zi].Reload(p, k, v);
      ThreeUpdated(s.pages, State().pages, zi);
      ThreeUpdated(s.ks, State().ks, zi);
      ThreeUpdated(s.vs, State().vs, zi);
    }

    /** Read a cold page's bytes back from its slot, and free the slot. */
    method ReadBack(zi: nat, p: nat)
      requires Shape() && ColdOk() && zi < 3 && ZoneOk(zi) && coldFile.Some?
      requires coldCapacity >= 1 ==> zones[zi].hotCount < ramPageLimit
      requires p < |zones[zi].pageState| && zones[zi].pageState[p].Cold? && zones[zi].pageState[p].slot < |coldSlotUsed|
      modifies this`coldSlotUsed, this`slotOwner, zones[zi]
      ensures ColdOk() && ZoneOk(zi)
      ensures zones[zi].View() == L.PushFront(old(zones[zi].View()), p)
      ensures State() == C.Reload(old(State()), q4PageSizes, zi, p)
      ensures zones[zi].f32Pages == old(zones[zi].f32Pages)
    {
      ghost var s := State();
      var k, v := TakeSlot(zi, zones[zi].pageState[p].slot);
      PutBack(zi, p, k, v);
      S.ReloadIs(s, State(), q4PageSizes, zi, p, k, v);
    }

    /** One turn of `ensure_page`'s allocation loop. */
    method AllocNext(zi: nat)
      requires Shape() && ColdOk() && zi < 3 && ZoneOk(zi)
      modifies this`coldFile, this`coldSlotUsed, this`coldWriteCursor, this`slotOwner, this`overwrote, this`clobbered
      modifies zones[zi]
      ensures ColdOk() && ZoneOk(zi) && (old(coldFile.Some?) ==> coldFile.Some?)
      ensures zones[zi].View() == L.Grow(L.MakeRoom(old(zones[zi].View()), ramPageLimit, coldCapacity >= 1))
      ensures
        var made := C.MakeRoom(old(State()), old(zones[zi].View()), q4PageSizes, zi, ramPageLimit);
        S.HasZone(made, q4PageSizes, zi) && State() == S.Grow(made, q4PageSizes, zi)
      ensures CC.Kept(zones[zi].order, old(zones[zi].f32Pages), zones[zi].f32Pages)
    {
      ghost var before := zones[zi].f32Pages;
      MakeRoom(zi);
      ghost var v, mid := zones[zi].View(), zones[zi].f32Pages;
      AllocHotPage(zi);
      KeptGrown(v, before, mid);
    }

    /** `reload_cold_page_in_zone`: make room first, then read the page back. */
    method ReloadColdPage(zi: nat, p: nat)
      requires Shape() && ColdOk() && zi < 3 && ZoneOk(zi) && S.SlotsInRange(State())
      requires p < |zones[zi].pageState| && zones[zi].pageState[p].Cold?
      modifies this`coldFile, this`coldSlotUsed, this`coldWriteCursor, this`slotOwner, this`overwrote, this`clobbered
      modifies zones[zi]
      ensures ColdOk() && ZoneOk(zi) && (old(coldFile.Some?) ==> coldFile.Some?)
      ensures zones[zi].View() == L.PushFront(L.MakeRoom(old(zones[zi].View()), ramPageLimit, coldCapacity >= 1), p)
      ensures State() ==
          C.Reload(C.MakeRoom(old(State()), old(zones[zi].View()), q4PageSizes, zi, ramPageLimit), q4PageSizes, zi, p)
      ensures CC.Kept(zones[zi].order, old(zones[zi].f32Pages), zones[zi].f32Pages)
    {
      assert S.IsCold(State(), zi, p);
      C.MakeRoomCold(State(), zones[zi].View(), q4PageSizes, zi, ramPageLimit, p);
      MakeRoom(zi);
      ReadBack(zi, p);
    }

    /** `ensure_page`'s allocation loop. */
    method AllocUpTo(zi: nat, p: nat)
      requires Shape() && ColdOk() && zi < 3 && ZoneOk(zi)
      modifies this`coldFile, this`coldSlotUsed, this`coldWriteCursor, this`slotOwner, this`overwrote, this`clobbered
      modifies zones[zi]
      ensures ColdOk() && ZoneOk(zi) && p < |zones[zi].pageState| && (old(coldFile.Some?) ==> coldFile.Some?)
      ensures zones[zi].View() == L.GrowTo(old(zones[zi].View()), p, ramPageLimit, coldCapacity >= 1)
      ensures State() == C.GrowTo(old(State()), old(zones[zi].View()), q4PageSizes, zi, p, ramPageLimit)
      ensures CC.Kept(zones[zi].order, old(zones[zi].f32Pages), zones[zi].f32Pages)
    {
      ghost var goal := L.GrowTo(zones[zi].View(), p, ramPageLimit, coldCapacity >= 1);
      ghost var stored := C.GrowTo(State(), zones[zi].View(), q4PageSizes, zi, p, ramPageLimit);
      while p >= |zones[zi].pageState|
        invariant ColdOk() && ZoneOk(zi) && (old(coldFile.Some?) ==> coldFile.Some?)
        invariant L.GrowTo(zones[zi].View(), p, ramPageLimit, coldCapacity >= 1) == goal
        invariant C.GrowTo(State(), zones[zi].View(), q4PageSizes, zi, p, ramPageLimit) == stored
        invariant CC.Kept(zones[zi].order, old(zones[zi].f32Pages), zones[zi].f32Pages)
        decreases p - |zones[zi].pageState|
      {
        ghost var v1, mid := zones[zi].View(), zones[zi].f32Pages;
        AllocNext(zi);
        KeptOn(v1, old(zones[zi].f32Pages), mid, zones[zi].f32Pages, ramPageLimit, coldCapacity >= 1);
      }
    }

    /** Mark a hot page as most recently used; nothing stored changes. */
    method Touch(zi: nat, p: nat)
      requires Shape() && ColdOk() && zi < 3 && ZoneOk(zi) && p in zones[zi].order
      modifies zones[zi]
      ensures ZoneOk(zi) && State() == old(State()) && zones[zi].f32Pages == old(zones[zi].f32Pages)
      ensures zones[zi].View() ==
          L.View([p] + RemoveAt(old(zones[zi].order), IndexOf(old(zones[zi].order), p)), old(zones[zi].importance))
      ensures forall q :: q in zones[zi].order ==> q in old(zones[zi].order)
    {
      RemoveAtMembers(zones[zi].order, IndexOf(zones[zi].order, p), p);
      zones[zi].TouchPage(p, q4PageSizes[zi]);
    }

    /** Make page p of zone zi hot, by allocating up to it or reloading it. */
    method BringIn(zi: nat, p: nat)
      requires Shape() && ColdOk() && zi < 3 && ZoneOk(zi) && S.SlotsInRange(State())
      modifies this`coldFile, this`coldSlotUsed, this`coldWriteCursor, this`slotOwner, this`overwrote, this`clobbered
      modifies zones[zi]
      ensures ColdOk() && ZoneOk(zi) && (old(coldFile.Some?) ==> coldFile.Some?) && p in zones[zi].order
      ensures zones[zi].View() ==
        if p >= old(|zones[zi].importance|) then L.GrowTo(old(zones[zi].View()), p, ramPageLimit, coldCapacity >= 1)
        else if p in old(zones[zi].order) then old(zones[zi].View())
        else L.PushFront(L.MakeRoom(old(zones[zi].View()), ramPageLimit, coldCapacity >= 1), p)
      ensures State() == C.Ensure(old(State()), old(zones[zi].View()), q4PageSizes, zi, p, ramPageLimit)
      ensures CC.Kept(zones[zi].order, old(zones[zi].f32Pages), zones[zi].f32Pages)
    {
      if p >= |zones[zi].pageState| {
        L.GrowToHead(zones[zi].View(), p, ramPageLimit, coldCapacity >= 1);
        AllocUpTo(zi, p);
      } else if zones[zi].pageState[p].Cold? {
        ReloadColdPage(zi, p);
      }
    }

    /** `ensure_page` on local page p of zone zi. */
    method EnsurePageIn(zi: nat, p: nat)
      requires Shape() && ColdOk() && zi < 3 && ZoneOk(zi) && S.SlotsInRange(State())
      modifies this`coldFile, this`coldSlotUsed, this`coldWriteCursor, this`slotOwner, this`overwrote, this`clobbered
      modifies zones[zi]
      ensures ColdOk() && ZoneOk(zi) && (old(coldFile.Some?) ==> coldFile.Some?)
      ensures zones[zi].View() == L.Ensure(old(zones[zi].View()), p, ramPageLimit, coldCapacity >= 1)
      ensures State() == C.Ensure(old(State()), old(zones[zi].View()), q4PageSizes, zi, p, ramPageLimit)
      ensures CC.Kept(zones[zi].order, old(zones[zi].f32Pages), zones[zi].f32Pages)
    {
      ghost var v := zones[zi].View();
      BringIn(zi, p);
      ghost var w := zones[zi].View();
      Touch(zi, p);
      L.EnsureIs(v, p, ramPageLimit, coldCapacity >= 1, w, zones[zi].View());
    }

    /** What the class keeps: only hot pages have copies. */
    lemma HotOnly()
      requires Shape() && ZoneOk(0) && ZoneOk(1) && ZoneOk(2)
      ensures CC.CopiesHot(Now())
    {
    }

    /** `ensure_page`, on zone and local page. */
    method EnsureFlat(flat: nat)
      requires Shape() && ColdOk() && ZoneOk(0) && ZoneOk(1) && ZoneOk(2) && S.SlotsInRange(State())
      modifies this`coldFile, this`coldSlotUsed, this`coldWriteCursor, this`slotOwner, this`overwrote, this`clobbered
      modifies zones[P.ResolveFlat(flat, maxSeqLen).0]
      ensures Shape() && ColdOk() && ZoneOk(0) && ZoneOk(1) && ZoneOk(2)
      ensures Value() == R.EnsuredFlat(Cfg(), old(Value()), flat)
      ensures CopiesLeft(flat, old(Now()), Now())
    {
      var (zi, p) := P.ResolveFlat(flat, maxSeqLen);
      EnsurePageIn(zi, p);
      ThreeUpdated(old(Value()).views, Value().views, zi);
    }

    /** What an ensure leaves of the copies. */
    ghost predicate CopiesLeft(flat: nat, a: CC.Seen, b: CC.Seen)
    {
      var zi := P.ResolveFlat(flat, maxSeqLen).0;
      && |b.cache.views| == |a.f32| == |b.f32| == 3 && (forall z :: 0 <= z < 3 && z != zi ==> b.f32[z] == a.f32[z])
      && CC.Kept(b.cache.views[zi].order, a.f32[zi], b.f32[zi])
    }

    /** What an ensure needs to know of the cache before. */
    ghost predicate CanEnsure(a: CC.Seen, flat: nat)
    {
      && |q4PageSizes| == 3 && R.WF(Cfg(), a.cache) && CC.CopiesHot(a) && CC.CopiesOk(Cfg(), a.f32)
      && R.WF(Cfg(), R.EnsuredFlat(Cfg(), a.cache, flat))
    }

    lemma ReadyToEnsure(flat: nat)
      requires Valid()
      ensures CanEnsure(Now(), flat)
    {
      HotOnly();
      R.FlatKeeps(Cfg(), Value(), flat);
    }

    /** The cache and its copies after one. */
    lemma EnsuredValid(half: Half, a: CC.Seen, flat: nat)
      requires Shape() && ColdOk() && ZoneOk(0) && ZoneOk(1) && ZoneOk(2)
      requires CanEnsure(a, flat) && Value() == R.EnsuredFlat(Cfg(), a.cache, flat) && CopiesLeft(flat, a, Now())
      ensures Valid() && CC.Acted(Cfg(), half, a, CC.Plain(R.EnsurePage(flat)), Now())
      ensures var (zi, p) := P.ResolveFlat(flat, maxSeqLen); p in zones[zi].order && zones[zi].order[0] == p
    {
      var (zi, p) := P.ResolveFlat(flat, maxSeqLen);
      HotOnly();
      CC.EnsureActed(Cfg(), half, a, flat, Now());
      CC.KeptOk(Cfg(), a, Now(), zi, zones[zi].order);
      L.EnsureHead(a.cache.views[zi], p, ramPageLimit, coldCapacity >= 1);
      assert Value().views[zi] == zones[zi].View();
    }

    /** `ensure_page`: the page with this flat id is hot, and first in its zone's list; lists, stored
        data and copies are what the theory of runs says. */
    method EnsurePage(flat: nat, ghost half: Half)
      requires Valid()
      modifies this`coldFile, this`coldSlotUsed, this`coldWriteCursor, this`slotOwner, this`overwrote, this`clobbered
      modifies zones[P.ResolveFlat(flat, maxSeqLen).0]
      ensures Valid() && Value() == R.EnsuredFlat(Cfg(), old(Value()), flat)
      ensures var (zi, p) := P.ResolveFlat(flat, maxSeqLen); p in zones[zi].order && zones[zi].order[0] == p
      ensures CC.Acted(Cfg(), half, old(Now()), CC.Plain(R.EnsurePage(flat)), Now()) &&
          CopiesLeft(flat, old(Now()), Now())
    {
      ghost var a := Now();
      ReadyToEnsure(flat);
      EnsureFlat(flat);
      EnsuredValid(half, a, flat);
    }

    // ----- FP32 copies -----

    /** One buffer of a page, dequantised. */
    method Dequantise(dims: K.Dims, page: seq<Byte>, half: Half) returns (f32: seq<real>)
      requires K.PageOf(dims, page)
      ensures K.F32PageOf(dims, |f32|) && K.AllDequantised(dims, page, f32, half)
    {
      var q4 := new Byte[|page|](i requires 0 <= i < |page| => page[i]);
      var out := new real[M.Radix(K.Row(dims, dims.layers, 0, 0), dims.headDim, 0)](_ => 0.0);
      assert q4[..] == page;
      K.DequantPage(dims, q4, out, half);
      f32 := out[..];
    }

    /** A hot page's bytes, as readers of the theory find them. */
    lemma HotPage(zi: nat, p: nat)
      requires Valid() && zi < 3 && p in zones[zi].order
      ensures p < |zones[zi].kQ4Pages| && zones[zi].kQ4Pages[p].Some?
      ensures p < |zones[zi].vQ4Pages| && zones[zi].vQ4Pages[p].Some?
      ensures S.PageAt(State(), q4PageSizes, zi, p) == (zones[zi].kQ4Pages[p].value, zones[zi].vQ4Pages[p].value)
      ensures K.PageOf(Cfg().DimsOf(zi), zones[zi].kQ4Pages[p].value)
      ensures K.PageOf(Cfg().DimsOf(zi), zones[zi].vQ4Pages[p].value)
    {
    }

    /** A hot page's copies, made from its bytes. */
    method MakeCopies(zi: nat, p: nat, half: Half) returns (copies: Copies)
      requires Valid() && zi < 3 && p in zones[zi].order
      ensures CC.Fills(Cfg().DimsOf(zi), half, None, S.PageAt(State(), q4PageSizes, zi, p), Some(copies))
    {
      HotPage(zi, p);
      ghost var bytes := S.PageAt(State(), q4PageSizes, zi, p);
      var k := Dequantise(Cfg().DimsOf(zi), zones[zi].kQ4Pages[p].value, half);
      var v := Dequantise(Cfg().DimsOf(zi), zones[zi].vQ4Pages[p].value, half);
      copies := Copies(k, v);
      assert CC.Fills(Cfg().DimsOf(zi), half, None, bytes, Some(copies));
    }

    /** Copies of the right size for a hot page; nothing else changes. */
    method PutCopies(zi: nat, p: nat, copies: Copies)
      requires Valid() && zi < 3 && p in zones[zi].order
      requires K.F32PageOf(Cfg().DimsOf(zi), |copies.k|) && K.F32PageOf(Cfg().DimsOf(zi), |copies.v|)
      modifies zones[zi]
      ensures Valid() && p < |old(F32())[zi]|
      ensures Now() == CC.Seen(old(Value()), CC.Put(old(F32()), zi, p, copies))
    {
      CC.PutOk(Cfg(), F32(), zi, p, copies);
      zones[zi].PutCopies(p, copies, q4PageSizes[zi]);
      ThreeUpdated(old(F32()), F32(), zi);
    }

    /** Page p has copies, no other page's changed. */
    ghost predicate CopyPut(zi: nat, p: nat, b: CC.Seen, c: CC.Seen)
    {
      && zi < |b.f32| == |c.f32| && (forall z :: 0 <= z < |b.f32| && z != zi ==> c.f32[z] == b.f32[z])
      && p < |b.f32[zi]| == |c.f32[zi]| && c.f32[zi][p].Some? && c.f32[zi] == b.f32[zi][p := c.f32[zi][p]]
    }

    /** `ensure_f32_page_in_zone`: the copies of a hot page are made from its bytes, if it has none. */
    method EnsureF32Page(zi: nat, p: nat, half: Half)
      requires Valid() && zi < 3 && p in zones[zi].order
      modifies zones[zi]
      ensures Valid() && CC.Filled(Cfg(), half, old(Now()), zi, p, Now())
      ensures CopyPut(zi, p, old(Now()), Now())
    {
      ghost var b := Now();
      if zones[zi].f32Pages[p].None? {
        var copies := MakeCopies(zi, p, half);
        PutCopies(zi, p, copies);
        CC.PutFilled(Cfg(), half, b, zi, p, copies, Now());
      }
    }

    /** The limit leaves a full eviction window beside the range's share of zone z, or room for all
        the pages the zone then has, so that none of the range pushes another out. */
    ghost predicate RoomFor(z: nat, v: L.View, start: nat, end: nat)
      requires z < 3
    {
      var n := P.CountIn(z, start, end);
      || coldCapacity == 0 || ramPageLimit >= n + 7 || n <= 1
      || Max(|v.importance|, P.FirstIn(z, start) + n) <= ramPageLimit
    }

    /** Then ensuring the next page of the range leaves those before it, and the room. */
    lemma RoomLeaves(z: nat, v: L.View, start: nat, flat: nat, end: nat)
      requires z < 3 && start <= flat < end && P.ResolveFlat(flat, maxSeqLen).0 == z && RoomFor(z, v, start, end)
      requires L.Ok(v) && ramPageLimit >= 1 && L.Full(v, ramPageLimit, coldCapacity >= 1)
      ensures Leaves(v, P.FirstIn(z, start), P.CountIn(z, start, flat), ramPageLimit, coldCapacity >= 1)
      ensures RoomFor(z, L.Ensure(v, P.ResolveFlat(flat, maxSeqLen).1, ramPageLimit, coldCapacity >= 1), start, end)
    {
      P.CountStep(start, flat, maxSeqLen);
      P.CountMonotone(z, start, flat + 1, end);
      L.EnsureHead(v, P.ResolveFlat(flat, maxSeqLen).1, ramPageLimit, coldCapacity >= 1);
    }

    /** What one turn of the loop below does to lists and copies. */
    ghost predicate Turned(flat: nat, a: CC.Seen, b: CC.Seen)
    {
      var (zi, p) := P.ResolveFlat(flat, maxSeqLen);
      && |q4PageSizes| == |a.cache.views| == |a.f32| == |b.f32| == 3 && b.cache == R.EnsuredFlat(Cfg(), a.cache, flat)
      && (forall z :: 0 <= z < 3 && z != zi ==> b.f32[z] == a.f32[z])
      && KeptBut(b.cache.views[zi].order, a.f32[zi], b.f32[zi], p)
    }

    /** One turn of the loop below. */
    method EnsureNextF32(flat: nat, half: Half)
      requires Valid()
      modifies this`coldFile, this`coldSlotUsed, this`coldWriteCursor, this`slotOwner, this`overwrote, this`clobbered
      modifies zones[P.ResolveFlat(flat, maxSeqLen).0]
      ensures Valid() && CC.Acted(Cfg(), half, old(Now()), CC.Fill(flat), Now()) && Turned(flat, old(Now()), Now())
    {
      var (zi, p) := P.ResolveFlat(flat, maxSeqLen);
      ghost var a := Now();
      EnsurePage(flat, half);
      ghost var b := Now();
      EnsureF32Page(zi, p, half);
      CC.FillActedBy(Cfg(), half, a, flat, b, Now());
      TurnedBy(flat, a, b, Now());
    }

    lemma TurnedBy(flat: nat, a: CC.Seen, b: CC.Seen, c: CC.Seen)
      requires |q4PageSizes| == |a.cache.views| == 3 && b.cache == R.EnsuredFlat(Cfg(), a.cache, flat) == c.cache
      requires CopiesLeft(flat, a, b)
      requires var (zi, p) := P.ResolveFlat(flat, maxSeqLen); CopyPut(zi, p, b, c)
      ensures Turned(flat, a, c)
    {
      var (zi, p) := P.ResolveFlat(flat, maxSeqLen);
      KeptThen(b.cache.views[zi].order, a.f32[zi], b.f32[zi], c.f32[zi], p);
    }

    /** A zone has its pages of the flat range start..upto-1 first in its list and dequantised,
        where there is room for its pages of the whole range start..end-1. */
    ghost predicate RangeReady(room: bool, v: L.View, f32: seq<Option<Copies>>, z: nat, start: nat, upto: nat, end: nat)
      requires z < 3
    {
      room ==> RoomFor(z, v, start, end) && Ready(v, f32, P.FirstIn(z, start), P.CountIn(z, start, upto))
    }

    ghost predicate AllReady(a: CC.Seen, rooms: seq<bool>, start: nat, upto: nat, end: nat)
    {
      && |rooms| == |a.cache.views| == |a.f32| == 3
      && forall z :: 0 <= z < 3 ==> RangeReady(rooms[z], a.cache.views[z], a.f32[z], z, start, upto, end)
    }

    /** One more flat page extends the range of its own zone, and leaves the other zones' alone. */
    lemma RangeReadyNext(room: bool, z: nat, start: nat, flat: nat, end: nat, v: L.View, f32: seq<Option<Copies>>,
                         w: L.View, done: seq<Option<Copies>>)
      requires z < 3 && start <= flat < end && RangeReady(room, v, f32, z, start, flat, end)
      requires L.Ok(v) && ramPageLimit >= 1 && L.Full(v, ramPageLimit, coldCapacity >= 1)
      requires
        var (zi, p) := P.ResolveFlat(flat, maxSeqLen);
        if z != zi then w == v && done == f32
        else w == L.Ensure(v, p, ramPageLimit, coldCapacity >= 1) && KeptBut(w.order, f32, done, p)
      ensures RangeReady(room, w, done, z, start, flat + 1, end)
    {
      var (zi, p) := P.ResolveFlat(flat, maxSeqLen);
      P.CountStep(start, flat, maxSeqLen);
      if room && z == zi {
        RoomLeaves(z, v, start, flat, end);
        ReadyNext(v, f32, P.FirstIn(z, start), P.CountIn(z, start, flat), ramPageLimit, coldCapacity >= 1, p, w, done);
      }
    }

    /** What the class keeps of the lists. */
    ghost predicate ViewsOk(c: R.Cache)
    {
      && |c.views| == 3 && ramPageLimit >= 1
      && forall z :: 0 <= z < 3 ==> L.Ok(c.views[z]) && L.Full(c.views[z], ramPageLimit, coldCapacity >= 1)
    }

    lemma ListsOk()
      requires Valid()
      ensures ViewsOk(Value())
    {
      forall z | 0 <= z < 3
        ensures L.Ok(Value().views[z])
      {
        C.FitsOk(State(), Value().views[z], q4PageSizes, z, ramPageLimit);
      }
    }

    lemma ReadyAfter(rooms: seq<bool>, start: nat, flat: nat, end: nat, a: CC.Seen, b: CC.Seen)
      requires start <= flat < end && ViewsOk(a.cache) && AllReady(a, rooms, start, flat, end) && Turned(flat, a, b)
      ensures AllReady(b, rooms, start, flat + 1, end)
    {
      forall z | 0 <= z < 3
        ensures RangeReady(rooms[z], b.cache.views[z], b.f32[z], z, start, flat + 1, end)
      {
        RangeReadyNext(rooms[z], z, start, flat, end, a.cache.views[z], a.f32[z], b.cache.views[z], b.f32[z]);
      }
    }

    /** A turn of the loop extends the range that is ready. */
    method EnsureNextReady(ghost rooms: seq<bool>, ghost start: nat, flat: nat, ghost end: nat, half: Half)
      requires Valid() && start <= flat < end && AllReady(Now(), rooms, start, flat, end)
      modifies this`coldFile, this`coldSlotUsed, this`coldWriteCursor, this`slotOwner, this`overwrote, this`clobbered
      modifies zones[P.ResolveFlat(flat, maxSeqLen).0]
      ensures Valid() && CC.Acted(Cfg(), half, old(Now()), CC.Fill(flat), Now())
      ensures Value() == R.EnsuredFlat(Cfg(), old(Value()), flat) && AllReady(Now(), rooms, start, flat + 1, end)
    {
      ghost var a := Now();
      ListsOk();
      EnsureNextF32(flat, half);
      ReadyAfter(rooms, start, flat, end, a, Now());
    }

    /** Whether the page with this flat id is hot and dequantised. */
    ghost predicate ResidentF32(flat: nat)
      requires Shape()
      reads zones
    {
      var (zi, p) := P.ResolveFlat(flat, maxSeqLen);
      && p < |zones[zi].pageState| && zones[zi].pageState[p].Hot?
      && p < |zones[zi].f32Pages| && zones[zi].f32Pages[p].Some?
    }

    lemma ReadyResident(rooms: seq<bool>, start: nat, end: nat, flat: nat)
      requires Valid() && start <= flat < end && AllReady(Now(), rooms, start, end, end)
      requires rooms[P.ResolveFlat(flat, maxSeqLen).0]
      ensures ResidentF32(flat)
    {
      var (zi, p) := P.ResolveFlat(flat, maxSeqLen);
      P.RangeCovered(start, end, flat, maxSeqLen);
      assert RangeReady(rooms[zi], Value().views[zi], F32()[zi], zi, start, end, end);
      L.FrontedResident(zones[zi].View(), P.FirstIn(zi, start), P.CountIn(zi, start, end));
    }

    /** The zones that have room for their pages of a range. */
    ghost predicate RoomsAre(rooms: seq<bool>, c: R.Cache, start: nat, end: nat)
    {
      |rooms| == |c.views| == 3 && forall z :: 0 <= z < 3 ==> rooms[z] == RoomFor(z, c.views[z], start, end)
    }

    lemma NothingReady(a: CC.Seen, start: nat, end: nat) returns (rooms: seq<bool>)
      requires |a.cache.views| == |a.f32| == 3
      ensures RoomsAre(rooms, a.cache, start, end) && AllReady(a, rooms, start, start, end)
    {
      rooms := [RoomFor(0, a.cache.views[0], start, end), RoomFor(1, a.cache.views[1], start, end),
                RoomFor(2, a.cache.views[2], start, end)];
    }

    /** What ensuring flat pages keeps, from c to d: all bytes unless an eviction clobbered them; and
        everything, where there was room to spare for all the range brings in. */
    ghost predicate Keeps(c: R.Cache, d: R.Cache, roomy: bool, ns: R.Bounds, zi: nat)
    {
      && |q4PageSizes| == 3 && S.KeepsBytes(c.s, d.s, q4PageSizes)
      && (roomy ==> R.Undisturbed(Cfg(), c, d, ns, zi))
    }

    lemma KeepsNext(c: R.Cache, mid: R.Cache, d: R.Cache, roomy: bool, ns: R.Bounds, zi: nat, flat: nat)
      requires Keeps(c, mid, roomy, ns, zi) && R.WF(Cfg(), mid) && d == R.EnsuredFlat(Cfg(), mid, flat)
      requires var (z, p) := P.ResolveFlat(flat, maxSeqLen); p < ns[z]
      ensures Keeps(c, d, roomy, ns, zi)
    {
      R.FlatKeeps(Cfg(), mid, flat);
      S.KeepsBytesTransitive(c.s, mid.s, d.s, q4PageSizes);
      if roomy {
        R.UndisturbedNext(Cfg(), c, mid, flat, ns, zi);
      }
    }

    lemma KeepsStart(c: R.Cache, roomy: bool, ns: R.Bounds, zi: nat)
      requires |q4PageSizes| == 3 && (roomy ==> R.RoomIn(Cfg(), c, ns, zi))
      ensures Keeps(c, c, roomy, ns, zi)
    {
      S.KeepsSame(c.s, q4PageSizes, 0);
    }

    /** The loop of `ensure_pages_hot_f32` so far. */
    ghost predicate RangeDone(g: Goal, run: seq<CC.Seen>, b: CC.Seen, upto: nat)
    {
      && |g.a.cache.views| == 3 && g.ns == R.RangeBounds(g.a.cache, g.start, g.end)
      && AllReady(b, g.rooms, g.start, upto, g.end) && Keeps(g.a.cache, b.cache, g.roomy, g.ns, g.zi)
      && CC.Leads(Cfg(), g.half, g.a, run, CC.Fills32(g.start, upto), b)
    }

    /** The cache after it. */
    ghost predicate Walks(g: Goal, run: seq<CC.Seen>, upto: nat)
      reads this, zones
    {
      Valid() && RangeDone(g, run, Now(), upto)
    }

    lemma RangeStarts(a: CC.Seen, start: nat, end: nat, half: Half, zi: nat) returns (run: seq<CC.Seen>, g: Goal)
      requires |q4PageSizes| == |a.cache.views| == |a.f32| == 3
      ensures g.a == a && g.start == start && g.end == end && g.half == half && g.zi == zi
      ensures g.roomy == R.RoomIn(Cfg(), a.cache, g.ns, zi)
      ensures RoomsAre(g.rooms, a.cache, start, end) && RangeDone(g, run, a, start)
    {
      var ns := R.RangeBounds(a.cache, start, end);
      var rooms := NothingReady(a, start, end);
      g := Goal(a, rooms, start, end, half, R.RoomIn(Cfg(), a.cache, ns, zi), ns, zi);
      KeepsStart(a.cache, g.roomy, ns, zi);
      run := [a];
    }

    lemma RangeNext(g: Goal, run: seq<CC.Seen>, b: CC.Seen, c: CC.Seen, flat: nat) returns (longer: seq<CC.Seen>)
      requires g.start <= flat < g.end && RangeDone(g, run, b, flat)
      requires R.WF(Cfg(), b.cache) && c.cache == R.EnsuredFlat(Cfg(), b.cache, flat)
      requires CC.Acted(Cfg(), g.half, b, CC.Fill(flat), c) && AllReady(c, g.rooms, g.start, flat + 1, g.end)
      ensures RangeDone(g, longer, c, flat + 1)
    {
      R.RangeIn(Cfg(), g.a.cache, g.start, g.end, flat);
      KeepsNext(g.a.cache, b.cache, c.cache, g.roomy, g.ns, g.zi, flat);
      CC.LeadsOn(Cfg(), g.half, g.a, run, CC.Fills32(g.start, flat), b, CC.Fill(flat), c);
      assert CC.Fills32(g.start, flat) + [CC.Fill(flat)] == CC.Fills32(g.start, flat + 1);
      longer := run + [c];
    }

    /** A turn of the loop. */
    method EnsureTurn(ghost g: Goal, ghost run: seq<CC.Seen>, flat: nat,
                      half: Half) returns (ghost longer: seq<CC.Seen>)
      requires g.start <= flat < g.end && half == g.half && Walks(g, run, flat)
      modifies this`coldFile, this`coldSlotUsed, this`coldWriteCursor, this`slotOwner, this`overwrote, this`clobbered
      modifies zones
      ensures Walks(g, longer, flat + 1)
    {
      ghost var b := Now();
      EnsureNextReady(g.rooms, g.start, flat, g.end, half);
      longer := RangeNext(g, run, b, Now(), flat);
    }

    /** The loop over the pages of a range, up to endPage inclusive. */
    method EnsureRange(ghost g: Goal, ghost start: seq<CC.Seen>, startPage: nat, endPage: nat, half: Half)
      returns (ghost run: seq<CC.Seen>, ghost upto: nat)
      requires Walks(g, start, startPage)
      requires half == g.half && g.start == startPage && g.end == endPage + 1
      modifies this`coldFile, this`coldSlotUsed, this`coldWriteCursor, this`slotOwner, this`overwrote, this`clobbered
      modifies zones
      ensures upto == Max(startPage, endPage + 1) && Walks(g, run, upto)
    {
      hide Walks;
      run := start;
      var flat := startPage;
      while flat <= endPage
        invariant startPage <= flat <= Max(startPage, endPage + 1) && Walks(g, run, flat)
      {
        run := EnsureTurn(g, run, flat, half);
        flat := flat + 1;
      }
      upto := flat;
    }

    /** What the whole loop has done. */
    lemma RangeEnds(g: Goal, run: seq<CC.Seen>, b: CC.Seen, upto: nat)
      requires upto == Max(g.start, g.end) && RangeDone(g, run, b, upto)
      ensures |q4PageSizes| == |g.a.cache.views| == 3 && g.ns == R.RangeBounds(g.a.cache, g.start, g.end)
      ensures S.KeepsBytes(g.a.cache.s, b.cache.s, q4PageSizes)
      ensures g.roomy ==> R.Undisturbed(Cfg(), g.a.cache, b.cache, g.ns, g.zi)
      ensures CC.Leads(Cfg(), g.half, g.a, run, CC.Fills32(g.start, g.end), b)
      ensures g.start <= g.end ==> AllReady(b, g.rooms, g.start, g.end, g.end)
    {
      assert CC.Fills32(g.start, upto) == CC.Fills32(g.start, g.end);
    }

    /** `ensure_pages_hot_f32`. It is a run of fills, one for each page of the range. Afterwards every
        page of the range is hot and dequantised at once, in each zone that has room for its share.
        And where zone zi alone has cold pages, with room to spare for all the pages the zones then
        have, every page of the cache keeps its bytes. */
    method EnsurePagesHotF32(startPage: nat, endPage: nat, half: Half, ghost zi: nat) returns (ghost run: seq<CC.Seen>)
      requires Valid()
      modifies this`coldFile, this`coldSlotUsed, this`coldWriteCursor, this`slotOwner, this`overwrote, this`clobbered
      modifies zones
      ensures Valid() && S.KeepsBytes(old(State()), State(), q4PageSizes)
      ensures CC.Leads(Cfg(), half, old(Now()), run, CC.Fills32(startPage, endPage + 1), Now())
      ensures forall flat :: startPage <= flat <= endPage && HasRoom(old(Value()), flat, startPage, endPage + 1) ==>
                ResidentF32(flat)
      ensures
        var ns := R.RangeBounds(old(Value()), startPage, endPage + 1);
        R.RoomIn(Cfg(), old(Value()), ns, zi) ==> R.Undisturbed(Cfg(), old(Value()), Value(), ns, zi)
    {
      ghost var g, upto;
      run, g := RangeStarts(Now(), startPage, endPage + 1, half, zi);
      run, upto := EnsureRange(g, run, startPage, endPage, half);
      RangeEnds(g, run, Now(), upto);
      forall flat | startPage <= flat <= endPage && HasRoom(g.a.cache, flat, startPage, endPage + 1)
        ensures ResidentF32(flat)
      {
        ReadyResident(g.rooms, startPage, endPage + 1, flat);
      }
    }

    /** The page's zone has room for its share of a range. */
    ghost predicate HasRoom(c: R.Cache, flat: nat, start: nat, end: nat)
    {
      var z := P.ResolveFlat(flat, maxSeqLen).0;
      |c.views| == 3 && RoomFor(z, c.views[z], start, end)
    }

    /** The pages attention at a position walks: afterwards each one, in a zone with room, is hot
        and dequantised, so that the walk may read all of them; and with room to spare nothing is
        lost. */
    method EnsureForAttention(validEnd: nat, half: Half, ghost zi: nat)
      returns (endPage: nat, ghost run: seq<CC.Seen>)
      requires Valid()
      modifies this`coldFile, this`coldSlotUsed, this`coldWriteCursor, this`slotOwner, this`overwrote, this`clobbered
      modifies zones
      ensures Valid() && S.KeepsBytes(old(State()), State(), q4PageSizes)
      ensures endPage == P.PageId(validEnd, maxSeqLen)
      ensures CC.Leads(Cfg(), half, old(Now()), run, CC.Fills32(0, endPage + 1), Now())
      ensures forall t :: 0 <= t <= validEnd ==> Attendable(old(Value()), t, endPage)
      ensures
        var ns := R.RangeBounds(old(Value()), 0, endPage + 1);
        R.RoomIn(Cfg(), old(Value()), ns, zi) ==> R.Undisturbed(Cfg(), old(Value()), Value(), ns, zi)
    {
      endPage := P.PageId(validEnd, maxSeqLen);
      ghost var c := Value();
      run := EnsurePagesHotF32(0, endPage, half, zi);
      AllAttendable(c, validEnd, endPage);
    }

    /** The page of position t, in a zone with room for pages 0..endPage, is hot and dequantised. */
    ghost predicate Attendable(c: R.Cache, t: nat, endPage: nat)
      requires Shape()
      reads zones
    {
      HasRoom(c, P.PageId(t, maxSeqLen), 0, endPage + 1) ==> ResidentF32(P.PageId(t, maxSeqLen))
    }

    lemma AllAttendable(c: R.Cache, validEnd: nat, endPage: nat)
      requires Shape() && endPage == P.PageId(validEnd, maxSeqLen)
      requires forall flat :: 0 <= flat <= endPage && HasRoom(c, flat, 0, endPage + 1) ==> ResidentF32(flat)
      ensures forall t :: 0 <= t <= validEnd ==> Attendable(c, t, endPage)
    {
      forall t | 0 <= t <= validEnd
        ensures Attendable(c, t, endPage)
      {
        P.PageIdMonotone(t, validEnd, maxSeqLen);
      }
    }

    // ----- importances and saves -----

    /** The steps on lists alone. */
    lemma ListsActed(half: Half, a: CC.Seen, op: R.Op)
      requires Shape() && ColdOk() && ZoneOk(0) && ZoneOk(1) && ZoneOk(2)
      requires R.WF(Cfg(), a.cache) && CC.CopiesOk(Cfg(), a.f32) && CC.CopiesHot(a)
      requires Value().s == a.cache.s && F32() == a.f32 && R.Took(Cfg(), half, a.cache, op, Value())
      ensures Valid() && CC.Acted(Cfg(), half, a, CC.Plain(op), Now())
    {
      R.TookKeeps(Cfg(), half, a.cache, op, Value());
      CC.OtherActedBy(Cfg(), half, a, op, Now());
    }

    method RecordIn(zi: nat, p: nat, weight: real)
      requires Shape() && ColdOk() && ZoneOk(0) && ZoneOk(1) && ZoneOk(2) && zi < 3
      modifies zones[zi]
      ensures ZoneOk(0) && ZoneOk(1) && ZoneOk(2) && State() == old(State()) && F32() == old(F32())
      ensures Value().views == old(Value()).views[zi := L.Record(old(Value()).views[zi], p, weight)]
    {
      zones[zi].RecordImportance(p, weight, q4PageSizes[zi]);
      ThreeUpdated(old(Value()).views, Value().views, zi);
    }

    /** `record_importance`, of a page that exists. */
    method RecordImportance(pos: nat, weight: real, ghost half: Half)
      requires Valid()
      modifies zones[P.ZoneIndex(pos)]
      ensures Valid() && CC.Acted(Cfg(), half, old(Now()), CC.Plain(R.Record(pos, weight)), Now())
    {
      ghost var a := Now();
      HotOnly();
      RecordIn(P.ZoneIndex(pos), P.LocalPage(pos), weight);
      ListsActed(half, a, R.Record(pos, weight));
    }

    method ForgetZone(z: nat)
      requires Shape() && ColdOk() && ZoneOk(0) && ZoneOk(1) && ZoneOk(2) && z < 3
      modifies zones[z]
      ensures ZoneOk(0) && ZoneOk(1) && ZoneOk(2) && State() == old(State()) && F32() == old(F32())
      ensures zones[z].View() == L.Forget(old(zones[z].View()))
    {
      zones[z].ResetEntropy(q4PageSizes[z]);
    }

    /** `reset_entropy`: the loop over the zones. */
    method ResetEntropy(ghost half: Half)
      requires Valid()
      modifies zones
      ensures Valid() && CC.Acted(Cfg(), half, old(Now()), CC.Plain(R.Reset), Now())
    {
      ghost var a := Now();
      HotOnly();
      for z := 0 to 3
        invariant ColdOk() && ZoneOk(0) && ZoneOk(1) && ZoneOk(2) && State() == a.cache.s && F32() == a.f32
        invariant zones[0].View() == if 0 < z then L.Forget(a.cache.views[0]) else a.cache.views[0]
        invariant zones[1].View() == if 1 < z then L.Forget(a.cache.views[1]) else a.cache.views[1]
        invariant zones[2].View() == if 2 < z then L.Forget(a.cache.views[2]) else a.cache.views[2]
      {
        ForgetZone(z);
      }
      ListsActed(half, a, R.Reset);
    }

    /** The Q4 bytes of one of a page's buffers, with a position's vectors saved over them. */
    method SavedPage(zi: nat, page: seq<Byte>, layer: nat, slot: nat, src: seq<F32>,
                     half: Half) returns (saved: seq<Byte>)
      requires Shape() && zi < 3 && K.PageOf(Cfg().DimsOf(zi), page) && layer < numLayers && slot < P.BlockSize(zi)
      requires |src| == M.Radix(numKvHeads, headDim, 0)
      ensures K.Saves(Cfg().DimsOf(zi), page, K.Save(layer, slot, src), saved, half)
    {
      var buffer := new Byte[|page|](i requires 0 <= i < |page| => page[i]);
      assert buffer[..] == page;
      K.SaveAt(Cfg().DimsOf(zi), buffer, layer, slot, src, half);
      saved := buffer[..];
    }

    /** Other bytes for a hot page; nothing else changes. */
    method PutBytes(zi: nat, p: nat, kb: seq<Byte>, vb: seq<Byte>)
      requires Shape() && ColdOk() && ZoneOk(0) && ZoneOk(1) && ZoneOk(2)
      requires zi < 3 && p in zones[zi].order && |kb| == |vb| == q4PageSizes[zi]
      modifies zones[zi]
      ensures ZoneOk(0) && ZoneOk(1) && ZoneOk(2) && p < |old(State()).ks[zi]| && p < |old(State()).vs[zi]|
      ensures Now() == old(Now()).(cache := old(Value()).(s := S.Write(old(State()), zi, p, kb, vb)))
    {
      ghost var s := State();
      zones[zi].WritePage(p, kb, vb);
      ThreeUpdated(s.ks, State().ks, zi);
      ThreeUpdated(s.vs, State().vs, zi);
    }

    /** The invariant stays. */
    method PutPage(zi: nat, p: nat, kb: seq<Byte>, vb: seq<Byte>)
      requires Valid() && zi < 3 && p in zones[zi].order && |kb| == |vb| == q4PageSizes[zi]
      modifies zones[zi]
      ensures Valid() && p < |old(State()).ks[zi]| && p < |old(State()).vs[zi]|
      ensures Now() == old(Now()).(cache := old(Value()).(s := S.Write(old(State()), zi, p, kb, vb)))
    {
      R.WriteKeeps(Cfg(), Value(), zi, p, kb, vb);
      PutBytes(zi, p, kb, vb);
    }

    /** Save a position's vectors into its hot page. */
    method WriteHot(pos: nat, layer: nat, k: seq<F32>, v: seq<F32>, half: Half)
      requires Valid() && layer < numLayers && |k| == |v| == M.Radix(numKvHeads, headDim, 0)
      requires P.LocalPage(pos) in zones[P.ZoneIndex(pos)].order
      modifies zones[P.ZoneIndex(pos)]
      ensures Valid() && exists kb, vb :: R.Written(Cfg(), half, old(Value()), layer, pos, k, v, kb, vb, Value())
      ensures F32() == old(F32()) && zones[P.ZoneIndex(pos)].order == old(zones[P.ZoneIndex(pos)].order)
    {
      var zi, p, slot := P.ZoneIndex(pos), P.LocalPage(pos), P.SlotInPage(pos);
      P.SlotBelowBlock(pos);
      ghost var c := Value();
      HotPage(zi, p);
      var kOld, vOld := zones[zi].kQ4Pages[p].value, zones[zi].vQ4Pages[p].value;
      var kb := SavedPage(zi, kOld, layer, slot, k, half);
      var vb := SavedPage(zi, vOld, layer, slot, v, half);
      PutPage(zi, p, kb, vb);
      assert R.Written(Cfg(), half, c, layer, pos, k, v, kb, vb, Value());
    }

    /** `save_at`: the page is ensured, then its blocks are quantised over what they held; its copies
        are left as they are. */
    method SaveAt(layer: nat, pos: nat, k: seq<F32>, v: seq<F32>, half: Half)
      requires Valid() && layer < numLayers && |k| == |v| == M.Radix(numKvHeads, headDim, 0)
      modifies this`coldFile, this`coldSlotUsed, this`coldWriteCursor, this`slotOwner, this`overwrote, this`clobbered
      modifies zones[P.ZoneIndex(pos)]
      ensures Valid() && CC.Acted(Cfg(), half, old(Now()), CC.Plain(R.Save(layer, pos, k, v)), Now())
      ensures P.LocalPage(pos) in zones[P.ZoneIndex(pos)].order
    {
      ghost var a, flat := Now(), P.PageId(pos, maxSeqLen);
      P.PageIdResolves(pos, maxSeqLen);
      EnsurePage(P.PageId(pos, maxSeqLen), half);
      ghost var b := Now();
      WriteHot(pos, layer, k, v, half);
      SavedActed(half, a, b, layer, pos, k, v);
    }

    lemma SavedActed(half: Half, a: CC.Seen, b: CC.Seen, layer: nat, pos: nat, k: seq<F32>, v: seq<F32>)
      requires Shape() && R.WF(Cfg(), a.cache) && F32() == b.f32
      requires b.cache == R.Ensured(Cfg(), a.cache, P.ZoneIndex(pos), P.LocalPage(pos))
      requires CC.Acted(Cfg(), half, a, CC.Plain(R.EnsurePage(P.PageId(pos, maxSeqLen))), b)
      requires exists kb, vb :: R.Written(Cfg(), half, b.cache, layer, pos, k, v, kb, vb, Value())
      ensures CC.Acted(Cfg(), half, a, CC.Plain(R.Save(layer, pos, k, v)), Now())
    {
      CC.SaveActedBy(Cfg(), half, a, P.PageId(pos, maxSeqLen), b, R.Save(layer, pos, k, v), Now());
    }

    /** One of a page's copies, refreshed with a position's vectors. */
    method RefreshedCopy(dims: K.Dims, was: seq<real>, layer: nat, slot: nat, src: seq<F32>) returns (now: seq<real>)
      requires K.F32PageOf(dims, |was|) && layer < dims.layers && slot < dims.slots
      requires |src| == M.Radix(dims.heads, dims.headDim, 0)
      ensures V.Refreshed(dims, was, K.Save(layer, slot, src), now)
    {
      var f32 := new real[|was|](i requires 0 <= i < |was| => was[i]);
      assert f32[..] == was;
      V.Refresh(dims, f32, layer, slot, src);
      now := f32[..];
    }

    /** `save`'s refresh of the copies of the page it has saved to, if there are any. */
    method RefreshCopies(layer: nat, pos: nat, k: seq<F32>, v: seq<F32>)
      requires Valid() && layer < numLayers && |k| == |v| == M.Radix(numKvHeads, headDim, 0)
      requires P.LocalPage(pos) in zones[P.ZoneIndex(pos)].order
      modifies zones[P.ZoneIndex(pos)]
      ensures Valid() && CC.Renewed(Cfg(), old(Now()), layer, pos, k, v, Now())
    {
      var zi, p, slot := P.ZoneIndex(pos), P.LocalPage(pos), P.SlotInPage(pos);
      ghost var b := Now();
      assert CC.CopyAt(F32(), zi, p) == zones[zi].f32Pages[p];
      if zones[zi].f32Pages[p].Some? {
        P.SlotBelowBlock(pos);
        var copies := zones[zi].f32Pages[p].value;
        var kc := RefreshedCopy(Cfg().DimsOf(zi), copies.k, layer, slot, k);
        var vc := RefreshedCopy(Cfg().DimsOf(zi), copies.v, layer, slot, v);
        PutCopies(zi, p, Copies(kc, vc));
        CC.PutRenewed(Cfg(), b, layer, pos, k, v, Copies(kc, vc), Now());
      }
    }

    /** `save`, at the current position: it saves as `save_at` does, and refreshes the copies. */
    method Save(layer: nat, pos: nat, k: seq<F32>, v: seq<F32>, half: Half)
      requires Valid() && layer < numLayers && |k| == |v| == M.Radix(numKvHeads, headDim, 0)
      modifies this`coldFile, this`coldSlotUsed, this`coldWriteCursor, this`slotOwner, this`overwrote, this`clobbered
      modifies zones[P.ZoneIndex(pos)]
      ensures Valid() && CC.Acted(Cfg(), half, old(Now()), CC.Fresh(layer, pos, k, v), Now())
    {
      ghost var a := Now();
      SaveAt(layer, pos, k, v, half);
      ghost var b := Now();
      RefreshCopies(layer, pos, k, v);
      CC.FreshActedBy(Cfg(), half, a, R.Save(layer, pos, k, v), b, Now());
    }

    /** `get_k_unchecked` and `get_v_unchecked`: a head's vector at a position, from the page's copies. */
    method GetUnchecked(layer: nat, head: nat, pos: nat, key: bool) returns (x: seq<real>)
      requires Valid() && layer < numLayers && head < numKvHeads
      requires CC.CopyAt(F32(), P.ZoneIndex(pos), P.LocalPage(pos)).Some?
      ensures |x| == headDim
      ensures
        var zi, p, slot := P.ZoneIndex(pos), P.LocalPage(pos), P.SlotInPage(pos);
        var page, dims := CC.PageSeen(Cfg(), Now(), zi, p, key), Cfg().DimsOf(zi);
        && V.PageOk(dims, page) && page.copy.Some?
        && forall e :: 0 <= e < headDim ==>
            V.Has(dims, layer, head, slot, e) && x[e] == V.Read(dims, page, layer, head, slot, e)
    {
      var zi, p, slot := P.ZoneIndex(pos), P.LocalPage(pos), P.SlotInPage(pos);
      P.SlotBelowBlock(pos);
      CopySeen(zi, p, key);
      var f32 := if key then zones[zi].f32Pages[p].value.k else zones[zi].f32Pages[p].value.v;
      x := RowOf(Cfg().DimsOf(zi), f32, layer, head, slot);
    }

    /** One vector of an FP32 page. */
    method RowOf(dims: K.Dims, f32: seq<real>, layer: nat, head: nat, slot: nat) returns (x: seq<real>)
      requires K.F32PageOf(dims, |f32|) && layer < dims.layers && head < dims.heads && slot < dims.slots
      ensures |x| == dims.headDim
      ensures forall e :: 0 <= e < dims.headDim ==> x[e] == V.At(dims, f32, layer, head, slot, e)
    {
      K.RowInPage(dims, layer, head, slot);
      var at := V.RowStart(dims, layer, head, slot);
      x := f32[at..at + dims.headDim];
    }

    /** A page with copies, as the theory of runs sees it. */
    lemma CopySeen(zi: nat, p: nat, key: bool)
      requires Valid() && zi < 3 && CC.CopyAt(F32(), zi, p).Some?
      ensures p < |zones[zi].f32Pages| && zones[zi].f32Pages[p].Some?
      ensures
        var page := CC.PageSeen(Cfg(), Now(), zi, p, key);
        && V.PageOk(Cfg().DimsOf(zi), page)
        && page.copy == Some(if key then zones[zi].f32Pages[p].value.k else zones[zi].f32Pages[p].value.v)
    {
      HotOnly();
      assert CC.CopyAt(F32(), zi, p) == zones[zi].f32Pages[p];
      assert CC.IsHot(State(), zi, p);
      HotPage(zi, p);
    }
  }
}
