// When a run of the cache can lose bytes: two zones that both evict, or one that overfills the
// cold store; and a run in which what one zone evicts is read as another zone's page.
module CacheClash {
  import opened Common
  import opened KvQuant
  import opened MixedRadix
  import opened CacheSaves
  import opened CacheZones
  import C = CacheRuns
  import B = KvBlocks
  import D = ColdStore
  import K = KvPages
  import L = LruSpec
  import P = Paging
  import R = LruReach
  import S = CacheState

  // ----- the zones' page sizes -----

  /** Bytes of one slot's share of a page. */
  function SlotBytes(cfg: Config): nat
  {
    20 * (cfg.layers * cfg.heads * ((cfg.headDim + 31) / 32))
  }

  lemma SizeIs(cfg: Config, z: nat)
    requires cfg.Sized() && z < 3
    ensures cfg.sizes[z] == P.BlockSize(z) * SlotBytes(cfg)
  {
    var rows, n, bs := cfg.layers * cfg.heads, (cfg.headDim + 31) / 32, P.BlockSize(z);
    assert cfg.sizes[z] == 20 * cfg.DimsOf(z).Count() && cfg.DimsOf(z).BlocksPerHead() == n;
    RadixIs(cfg.layers, cfg.heads, 0);
    RadixIs(rows, bs, 0);
    RadixIs(rows * bs, n, 0);
    Regroup(rows, bs, n);
  }

  lemma Regroup(a: nat, b: nat, c: nat)
    ensures 20 * (a * b * c) == b * (20 * (a * c))
  {
    assert a * b * c == b * (a * c);
  }

  /** How many pages of zone z make one of the later zone w. */
  function Ratio(z: nat, w: nat): (m: nat)
    requires z < w < 3
    ensures m >= 4
  {
    if z == 1 then 8 else if w == 1 then 4 else 32
  }

  lemma SizesApart(cfg: Config, z: nat, w: nat)
    requires cfg.Sized() && z < w < 3
    ensures cfg.sizes[w] == Ratio(z, w) * cfg.sizes[z]
  {
    SizeIs(cfg, z);
    SizeIs(cfg, w);
    assert P.BlockSize(w) == Ratio(z, w) * P.BlockSize(z);
    Product(Ratio(z, w), P.BlockSize(z), SlotBytes(cfg));
  }

  lemma Product(a: nat, b: nat, c: nat)
    ensures a * b * c == a * (b * c)
  {
  }

  // ----- one more page in a full zone -----

  /** Ensuring the next page of a zone: room is made, and a page added. */
  lemma NextPage(cfg: Config, c: Cache, zi: nat)
    requires WF(cfg, c) && zi < 3
    ensures
      var v := c.views[zi];
      var t, d := C.MakeRoom(c.s, v, cfg.sizes, zi, cfg.limit), Ensured(cfg, c, zi, |v.importance|);
      S.HasZone(t, cfg.sizes, zi)
      && d == Cache(S.Grow(t, cfg.sizes, zi), c.views[zi := L.Grow(L.MakeRoom(v, cfg.limit, cfg.coldCapacity >= 1))])
  {
    var v, p, cold := c.views[zi], |c.views[zi].importance|, cfg.coldCapacity >= 1;
    C.MakeRoomKeeps(c.s, v, cfg.sizes, zi, cfg.limit);
    var t, w := S.Grow(C.MakeRoom(c.s, v, cfg.sizes, zi, cfg.limit), cfg.sizes, zi),
        L.Grow(L.MakeRoom(v, cfg.limit, cold));
    assert L.Ensure(v, p, cfg.limit, cold) == L.GrowTo(w, p, cfg.limit, cold) == w;
    assert C.Ensure(c.s, v, cfg.sizes, zi, p, cfg.limit) == C.GrowTo(t, w, cfg.sizes, zi, p, cfg.limit) == t;
  }

  /** The zone has as many pages as the limit, all hot. */
  ghost predicate AtLimit(cfg: Config, c: Cache, zi: nat)
  {
    |c.views| == 3 && zi < 3 && |c.views[zi].order| == |c.views[zi].importance| == cfg.limit
  }

  function Victim(c: Cache, zi: nat): nat
    requires |c.views| == 3 && zi < 3 && c.views[zi].order != []
  {
    c.views[zi].order[L.VictimIndex(c.views[zi])]
  }

  function NextSlot(c: Cache): nat
    requires c.s.cursor < |c.s.used|
  {
    D.Chosen(c.s.used, c.s.cursor)
  }

  /** Then one more page evicts one, to the next slot. */
  lemma OneMore(cfg: Config, c: Cache, zi: nat)
    requires WF(cfg, c) && AtLimit(cfg, c, zi) && cfg.coldCapacity >= 1
    ensures c.s.cursor < |c.s.used| && c.views[zi].order != []
    ensures S.CanEvict(c.s, cfg.sizes, zi, Victim(c, zi), NextSlot(c))
    ensures
      var t, d := S.Evict(c.s, cfg.sizes, zi, Victim(c, zi), NextSlot(c)), Ensured(cfg, c, zi, cfg.limit);
      S.HasZone(t, cfg.sizes, zi) && d.s == S.Grow(t, cfg.sizes, zi) && WF(cfg, d)
      && forall z :: 0 <= z < 3 && z != zi ==> d.views[z] == c.views[z]
  {
    var v := c.views[zi];
    assert C.Fits(c.s, v, cfg.sizes, zi, cfg.limit);
    C.EvictFits(c.s, v, cfg.sizes, zi, cfg.limit, L.VictimIndex(v), NextSlot(c));
    NextPage(cfg, c, zi);
    EnsuredKeeps(cfg, c, zi, cfg.limit);
  }

  // ----- two zones that evict -----

  ghost predicate OnlyFirstUsed(used: seq<bool>)
  {
    forall i :: 0 <= i < |used| ==> (used[i] <==> i == 0)
  }

  /** Page p of zone w is in slot 0, no other slot is used, and the next one is next. */
  ghost predicate FirstCold(cfg: Config, c: Cache, w: nat, p: nat)
  {
    && WF(cfg, c) && cfg.coldCapacity >= 1 && S.IsCold(c.s, w, p) && c.s.pages[w][p] == Cold(0)
    && OnlyFirstUsed(c.s.used) && c.s.cursor == (if cfg.coldCapacity == 1 then 0 else 1)
  }

  /** The slot an eviction takes next is slot 1, or slot 0 where there is no other. */
  lemma SecondSlot(cfg: Config, c: Cache, w: nat, p: nat)
    requires FirstCold(cfg, c, w, p)
    ensures NextSlot(c) == c.s.cursor && (c.s.used[NextSlot(c)] <==> cfg.coldCapacity == 1)
  {
    assert D.Round(c.s.cursor, 0, |c.s.used|) == c.s.cursor;
    if cfg.coldCapacity == 1 {
      assert D.ChosenFrom(c.s.used, 0, 1) == 0;
    }
  }

  /** A new zone's pages up to the limit: slots and file stay as they were. */
  lemma FilledQuietly(cfg: Config, c: Cache, z: nat, p: nat)
    requires WF(cfg, c) && z < 3 && p < cfg.limit && |c.views[z].order| == |c.views[z].importance| <= cfg.limit
    ensures
      var d := Ensured(cfg, c, z, p);
      && WF(cfg, d) && C.SameSlots(c.s, d.s) && C.Elsewhere(c.s, d.s, z)
      && (forall zi :: S.Keeps(c.s, d.s, cfg.sizes, zi))
      && (forall w :: 0 <= w < 3 && w != z ==> d.views[w] == c.views[w])
      && |d.views[z].order| == |d.views[z].importance| == Max(|c.views[z].importance|, p + 1)
  {
    var d := Ensured(cfg, c, z, p);
    EnsuredKeeps(cfg, c, z, p);
    C.EnsureKeeps(c.s, c.views[z], cfg.sizes, z, p, cfg.limit);
    L.EnsureHead(c.views[z], p, cfg.limit, cfg.coldCapacity >= 1);
    forall zi: nat
      ensures S.Keeps(c.s, d.s, cfg.sizes, zi)
    {
      C.QuietKeeps(c.s, c.views[z], cfg.sizes, z, p, cfg.limit, zi);
    }
    C.QuietKeeps(c.s, c.views[z], cfg.sizes, z, p, cfg.limit, 0);
    assert L.Full(d.views[z], cfg.limit, cfg.coldCapacity >= 1);
  }

  /** No slot has been used yet. */
  ghost predicate Untouched(cfg: Config, c: Cache)
  {
    && WF(cfg, c) && !c.s.overwrote && c.s.cursor == 0 && c.s.owner == map[]
    && forall i :: 0 <= i < |c.s.used| ==> !c.s.used[i]
  }

  lemma NoneCold(cfg: Config, c: Cache)
    requires Untouched(cfg, c)
    ensures forall z: nat, p: nat :: !S.IsCold(c.s, z, p)
  {
    assert S.SlotsExact(c.s);
  }

  lemma EmptyUntouched(cfg: Config)
    requires cfg.Sized() && cfg.limit >= 1
    ensures Untouched(cfg, Empty(cfg))
  {
    EmptyOk(cfg);
  }

  /** The first eviction ever goes to slot 0. */
  lemma FirstEvicted(cfg: Config, c: Cache, w: nat)
    requires Untouched(cfg, c) && AtLimit(cfg, c, w) && cfg.coldCapacity >= 1
    ensures NextSlot(c) == 0 && FirstCold(cfg, Ensured(cfg, c, w, cfg.limit), w, Victim(c, w))
  {
    assert D.Round(0, 0, |c.s.used|) == 0;
    OneMore(cfg, c, w);
    EvictedToFirst(c.s, cfg.sizes, w, Victim(c, w));
  }

  lemma EvictedToFirst(s: S.State, sizes: seq<nat>, w: nat, p: nat)
    requires S.CanEvict(s, sizes, w, p, 0) && forall i :: 0 <= i < |s.used| ==> !s.used[i]
    requires S.HasZone(S.Evict(s, sizes, w, p, 0), sizes, w)
    ensures
      var t := S.Grow(S.Evict(s, sizes, w, p, 0), sizes, w);
      && S.IsCold(t, w, p) && t.pages[w][p] == Cold(0) && |t.used| == |s.used|
      && OnlyFirstUsed(t.used) && t.cursor == (if |s.used| == 1 then 0 else 1)
  {
    var t := S.Evict(s, sizes, w, p, 0);
    assert t.pages[w][p] == Cold(0);
  }

  /** And stays there while other zones fill up to the limit. */
  lemma FirstColdStays(cfg: Config, c: Cache, d: Cache, z: nat, w: nat, p: nat)
    requires FirstCold(cfg, c, w, p) && z != w && WF(cfg, d)
    requires C.SameSlots(c.s, d.s) && C.Elsewhere(c.s, d.s, z)
    ensures FirstCold(cfg, d, w, p)
  {
  }

  lemma SlotsMeet(cfg: Config, z: nat, w: nat, slot: nat)
    requires cfg.Sized() && z < w < 3 && slot <= 1 && cfg.sizes[z] > 0
    ensures !D.SlotsDisjoint(slot, cfg.sizes[z], 0, cfg.sizes[w])
  {
    SizesApart(cfg, z, w);
    D.ZonesClashExact(cfg.sizes[z], Ratio(z, w), 0, slot);
  }

  /** The first eviction of a zone of smaller pages then writes over that page's bytes. */
  lemma SecondClobbers(cfg: Config, c: Cache, z: nat, w: nat, p: nat)
    requires FirstCold(cfg, c, w, p) && z < w < 3 && AtLimit(cfg, c, z) && cfg.sizes[z] > 0
    ensures Ensured(cfg, c, z, cfg.limit).s.clobbered
  {
    SecondSlot(cfg, c, w, p);
    OneMore(cfg, c, z);
    SlotsMeet(cfg, z, w, NextSlot(c));
    assert S.Clashes(c.s, cfg.sizes, z, NextSlot(c));
  }

  /** Two ensures, which bring one page more than the limit into zone w. */
  lemma FirstColdRun(cfg: Config, half: Half, ns: Bounds, z: nat, w: nat)
    returns (run: seq<Cache>, ops: seq<Op>, p: nat)
    requires cfg.Sized() && cfg.limit >= 1 && cfg.coldCapacity >= 1 && Allotted(cfg, ns)
    requires z < w < 3 && ns[w] > cfg.limit
    ensures IsRun(cfg, half, run, ops) && OnlyIn(cfg, ops, ns)
    ensures FirstCold(cfg, run[|ops|], w, p) && run[|ops|].views[z] == L.View([], [])
  {
    run, ops := StartRun(cfg, half, ns);
    EmptyUntouched(cfg);
    FilledQuietly(cfg, run[|ops|], w, cfg.limit - 1);
    run, ops := RunEnsures(cfg, half, run, ops, ns, w, cfg.limit - 1);
    p := Victim(run[|ops|], w);
    FirstEvicted(cfg, run[|ops|], w);
    OneMore(cfg, run[|ops|], w);
    run, ops := RunEnsures(cfg, half, run, ops, ns, w, cfg.limit);
  }

  /** And two more, which do so in zone z. */
  lemma ClashingRun(cfg: Config, half: Half, ns: Bounds, z: nat, w: nat) returns (run: seq<Cache>, ops: seq<Op>)
    requires cfg.Sized() && cfg.limit >= 1 && cfg.coldCapacity >= 1 && Allotted(cfg, ns)
    requires z < w < 3 && ns[z] > cfg.limit && ns[w] > cfg.limit && cfg.sizes[z] > 0
    ensures IsRun(cfg, half, run, ops) && OnlyIn(cfg, ops, ns) && run[|ops|].s.clobbered
  {
    var p;
    run, ops, p := FirstColdRun(cfg, half, ns, z, w);
    var c := run[|ops|];
    FilledQuietly(cfg, c, z, cfg.limit - 1);
    run, ops := RunEnsures(cfg, half, run, ops, ns, z, cfg.limit - 1);
    FirstColdStays(cfg, c, run[|ops|], z, w, p);
    SecondClobbers(cfg, run[|ops|], z, w, p);
    run, ops := RunEnsures(cfg, half, run, ops, ns, z, cfg.limit);
  }

  // ----- one zone that overfills the cold store -----

  /** Zone zi alone has cold pages, and overwriting a slot has clobbered. */
  ghost predicate AloneOrClobbered(c: Cache, zi: nat)
  {
    S.ColdOnlyIn(c.s, zi) && (c.s.overwrote ==> c.s.clobbered)
  }

  lemma {:induction false} AloneRun(cfg: Config, half: Half, run: seq<Cache>, ops: seq<Op>, ns: Bounds, zi: nat, k: nat)
    requires IsRun(cfg, half, run, ops) && OnlyIn(cfg, ops, ns) && zi < 3 && cfg.sizes[zi] > 0 && k <= |ops|
    requires forall z :: 0 <= z < 3 && z != zi ==> ns[z] == 0
    ensures AloneOrClobbered(run[k], zi)
  {
    if k == 0 {
      EmptyAlone(cfg, zi);
    } else {
      AloneRun(cfg, half, run, ops, ns, zi, k - 1);
      RunFits(cfg, half, run, ops, k - 1);
      AloneStep(cfg, half, run[k - 1], ops[k - 1], run[k - 1 + 1], ns, zi);
    }
  }

  lemma EmptyAlone(cfg: Config, zi: nat)
    requires cfg.Sized() && cfg.limit >= 1
    ensures AloneOrClobbered(Empty(cfg), zi)
  {
    EmptyUntouched(cfg);
    NoneCold(cfg, Empty(cfg));
  }

  lemma AloneStep(cfg: Config, half: Half, c: Cache, op: Op, d: Cache, ns: Bounds, zi: nat)
    requires WF(cfg, c) && Took(cfg, half, c, op, d) && OpIn(cfg, op, ns) && zi < 3 && cfg.sizes[zi] > 0
    requires (forall z :: 0 <= z < 3 && z != zi ==> ns[z] == 0) && AloneOrClobbered(c, zi)
    ensures AloneOrClobbered(d, zi)
  {
    var mid := TookFrom(cfg, half, c, op, d, ns);
    if mid != c {
      var z: nat, p: nat :| z < 3 && p < ns[z] && mid == Ensured(cfg, c, z, p);
      assert z == zi;
      EnsuredKeeps(cfg, c, zi, p);
    }
  }

  /** Filling the zone, and one page more, or one of its cold pages again, clobbers. */
  lemma CrowdedRun(cfg: Config, half: Half, ns: Bounds, zi: nat) returns (run: seq<Cache>, ops: seq<Op>)
    requires cfg.Sized() && cfg.limit >= 1 && cfg.coldCapacity >= 1 && Allotted(cfg, ns) && zi < 3
    requires ns[zi] >= cfg.limit + cfg.coldCapacity && cfg.sizes[zi] > 0
    ensures IsRun(cfg, half, run, ops) && OnlyIn(cfg, ops, ns) && run[|ops|].s.clobbered
  {
    var fewer: Bounds := [0, 0, 0][zi := ns[zi]];
    run, ops := OverwritingRun(cfg, half, fewer);
    AloneRun(cfg, half, run, ops, fewer, zi, |ops|);
    OnlyInMore(cfg, ops, fewer, ns);
  }

  lemma OnlyInMore(cfg: Config, ops: seq<Op>, ms: Bounds, ns: Bounds)
    requires OnlyIn(cfg, ops, ms) && forall z :: 0 <= z < 3 ==> ms[z] <= ns[z]
    ensures OnlyIn(cfg, ops, ns)
  {
    forall i | 0 <= i < |ops|
      ensures OpIn(cfg, ops[i], ns)
    {
      assert OpIn(cfg, ops[i], ms);
    }
  }

  // ----- exactly when no run loses bytes -----

  lemma ClobberingRun(cfg: Config, half: Half, ns: Bounds) returns (run: seq<Cache>, ops: seq<Op>)
    requires cfg.Sized() && cfg.limit >= 1 && SlotBytes(cfg) > 0 && Allotted(cfg, ns)
    requires !Spacious(cfg, ns, 0) && !Spacious(cfg, ns, 1) && !Spacious(cfg, ns, 2)
    ensures IsRun(cfg, half, run, ops) && OnlyIn(cfg, ops, ns) && run[|ops|].s.clobbered
  {
    forall z | 0 <= z < 3
      ensures cfg.sizes[z] > 0
    {
      SizeIs(cfg, z);
    }
    if ns[0] > cfg.limit && ns[1] > cfg.limit {
      run, ops := ClashingRun(cfg, half, ns, 0, 1);
    } else if ns[0] > cfg.limit && ns[2] > cfg.limit {
      run, ops := ClashingRun(cfg, half, ns, 0, 2);
    } else if ns[1] > cfg.limit && ns[2] > cfg.limit {
      run, ops := ClashingRun(cfg, half, ns, 1, 2);
    } else {
      run, ops := CrowdedRun(cfg, half, ns, if ns[0] > cfg.limit then 0 else if ns[1] > cfg.limit then 1 else 2);
    }
  }

  /** Runs within the zones' bounds clobber no cold page exactly when nothing is ever evicted, or
      only one zone can evict, and RAM and cold store hold its pages with a slot to spare. */
  lemma ClobberExact(cfg: Config, half: Half, ns: Bounds)
    requires cfg.Sized() && cfg.limit >= 1 && SlotBytes(cfg) > 0 && Allotted(cfg, ns)
    ensures (forall run: seq<Cache>, ops: seq<Op> ::
               IsRun(cfg, half, run, ops) && OnlyIn(cfg, ops, ns) ==> !run[|ops|].s.clobbered)
       <==> exists zi: nat :: Spacious(cfg, ns, zi)
  {
    if zi: nat :| Spacious(cfg, ns, zi) {
      forall run: seq<Cache>, ops: seq<Op> | IsRun(cfg, half, run, ops) && OnlyIn(cfg, ops, ns)
        ensures !run[|ops|].s.clobbered
      {
        SpaciousRun(cfg, half, run, ops, ns, zi, |ops|);
      }
    } else {
      var run, ops := ClobberingRun(cfg, half, ns);
    }
  }

  // ----- one zone's page read in another's -----

  /** A position of the first page of a zone. */
  predicate OnFirstPage(z: nat, pos: nat)
  {
    P.ZoneIndex(pos) == z && P.LocalPage(pos) == 0
  }

  /** Both zones have room for one page more than the limit. */
  predicate Reaches(cfg: Config, z: nat, w: nat)
  {
    z < w < 3 && cfg.limit < P.PagesIn(z, cfg.maxSeqLen) && (w < 2 ==> cfg.limit < P.PagesIn(w, cfg.maxSeqLen))
  }

  /** One page more than the limit in zone w; a save to the first page of zone z, and one page
      more than the limit there too. */
  function ClashOps(cfg: Config, z: nat, w: nat, layer: nat, pos: nat, k: seq<F32>, v: seq<F32>): seq<Op>
    requires cfg.limit >= 1 && z < w < 3
  {
    [EnsurePage(P.FlatPageId(w, cfg.limit - 1, cfg.maxSeqLen)), EnsurePage(P.FlatPageId(w, cfg.limit, cfg.maxSeqLen)),
     Save(layer, pos, k, v),
     EnsurePage(P.FlatPageId(z, cfg.limit - 1, cfg.maxSeqLen)), EnsurePage(P.FlatPageId(z, cfg.limit, cfg.maxSeqLen))]
  }

  /** The states of such a run, up to the save, */
  ghost predicate ClashBegins(cfg: Config, run: seq<Cache>, w: nat)
    requires cfg.limit >= 1 && w < 3
  {
    && |run| == 6 && run[0] == Empty(cfg) && |run[1].views| == |run[2].views| == 3
    && run[1] == Ensured(cfg, run[0], w, cfg.limit - 1) && run[2] == Ensured(cfg, run[1], w, cfg.limit)
  }

  /** and from it on. */
  ghost predicate ClashEnds(cfg: Config, run: seq<Cache>, z: nat)
    requires cfg.limit >= 1 && z < 3
  {
    && |run| == 6 && |run[3].views| == |run[4].views| == 3
    && run[4] == Ensured(cfg, run[3], z, cfg.limit - 1) && run[5] == Ensured(cfg, run[4], z, cfg.limit)
  }

  lemma ClashRunBegins(cfg: Config, half: Half, run: seq<Cache>, ops: seq<Op>, w: nat)
    requires cfg.limit >= 1 && w < 3 && (w < 2 ==> cfg.limit < P.PagesIn(w, cfg.maxSeqLen))
    requires IsRun(cfg, half, run, ops) && |ops| == 5
    requires ops[0] == EnsurePage(P.FlatPageId(w, cfg.limit - 1, cfg.maxSeqLen))
    requires ops[1] == EnsurePage(P.FlatPageId(w, cfg.limit, cfg.maxSeqLen))
    ensures ClashBegins(cfg, run, w)
  {
    var n := cfg.limit;
    EnsureTook(cfg, half, run, ops, 0, w, n - 1);
    EnsureTook(cfg, half, run, ops, 1, w, n);
  }

  lemma ClashRunEnds(cfg: Config, half: Half, run: seq<Cache>, ops: seq<Op>, z: nat)
    requires cfg.limit >= 1 && z < 2 && cfg.limit < P.PagesIn(z, cfg.maxSeqLen) && IsRun(cfg, half, run, ops)
    requires |ops| == 5 && ops[3] == EnsurePage(P.FlatPageId(z, cfg.limit - 1, cfg.maxSeqLen))
    requires ops[4] == EnsurePage(P.FlatPageId(z, cfg.limit, cfg.maxSeqLen))
    ensures ClashEnds(cfg, run, z)
  {
    var n := cfg.limit;
    EnsureTook(cfg, half, run, ops, 3, z, n - 1);
    EnsureTook(cfg, half, run, ops, 4, z, n);
  }

  lemma SaveTaken(cfg: Config, half: Half, run: seq<Cache>, ops: seq<Op>, i: nat)
    requires IsRun(cfg, half, run, ops) && i < |ops|
    ensures |run[i].views| == 3 && Took(cfg, half, run[i], ops[i], run[i + 1])
  {
  }

  lemma EnsureTook(cfg: Config, half: Half, run: seq<Cache>, ops: seq<Op>, i: nat, z: nat, p: nat)
    requires IsRun(cfg, half, run, ops) && i < |ops| && z < 3 && (z < 2 ==> p < P.PagesIn(z, cfg.maxSeqLen))
    requires ops[i] == EnsurePage(P.FlatPageId(z, p, cfg.maxSeqLen))
    ensures |run[i].views| == |run[i + 1].views| == 3 && run[i + 1] == Ensured(cfg, run[i], z, p)
  {
    assert Took(cfg, half, run[i], ops[i], run[i + 1]);
    P.ResolveInverts(z, p, cfg.maxSeqLen);
    RunFits(cfg, half, run, ops, i + 1);
  }

  ghost predicate AllZero(b: seq<Byte>)
  {
    forall i :: 0 <= i < |b| ==> b[i] == 0
  }

  /** A hot page's bytes are its buffers. */
  lemma HotBytes(cfg: Config, c: Cache, z: nat, p: nat)
    requires WF(cfg, c) && z < 3 && S.HasZone(c.s, cfg.sizes, z) && p < |c.s.pages[z]| && c.s.pages[z][p].Hot?
    ensures c.s.ks[z][p].Some? && c.s.vs[z][p].Some?
    ensures S.PageAt(c.s, cfg.sizes, z, p) == (c.s.ks[z][p].value, c.s.vs[z][p].value)
    ensures |c.s.ks[z][p].value| == |c.s.vs[z][p].value| == cfg.sizes[z]
  {
    assert C.Fits(c.s, c.views[z], cfg.sizes, z, cfg.limit) && C.HotPage(c.s, cfg.sizes, z, p);
  }

  /** After zone w's first eviction: a page of zeros is in slot 0 of a file of zeros, and zone z
      is still empty. */
  ghost predicate Prepared(cfg: Config, c: Cache, z: nat, w: nat, p: nat)
  {
    && FirstCold(cfg, c, w, p) && z < w < 3 && AllZero(c.s.file) && !c.s.overwrote && S.Alone(c.s, w)
  }

  lemma FirstZeros(cfg: Config, z: nat, w: nat) returns (p: nat)
    requires cfg.Sized() && cfg.limit >= 1 && cfg.coldCapacity >= 1 && z < w < 3
    ensures
      var a := Ensured(cfg, Empty(cfg), w, cfg.limit - 1);
      var b := Ensured(cfg, a, w, cfg.limit);
      Prepared(cfg, b, z, w, p) && b.views[z] == L.View([], [])
  {
    EmptyUntouched(cfg);
    FilledQuietly(cfg, Empty(cfg), w, cfg.limit - 1);
    var a := Ensured(cfg, Empty(cfg), w, cfg.limit - 1);
    p := Victim(a, w);
    FirstEvicted(cfg, a, w);
    OneMore(cfg, a, w);
    FirstAlone(cfg, a, w);
    VictimZero(cfg, a, w, p);
  }

  lemma FirstAlone(cfg: Config, a: Cache, w: nat)
    requires Untouched(cfg, a) && AtLimit(cfg, a, w) && cfg.coldCapacity >= 1
    ensures S.Alone(Ensured(cfg, a, w, cfg.limit).s, w)
  {
    NoneCold(cfg, a);
    EnsuredKeeps(cfg, a, w, cfg.limit);
    FirstEvicted(cfg, a, w);
    OneMore(cfg, a, w);
  }

  lemma VictimZero(cfg: Config, a: Cache, w: nat, p: nat)
    requires cfg.Sized() && cfg.limit >= 1 && cfg.coldCapacity >= 1 && w < 3
    requires a == Ensured(cfg, Empty(cfg), w, cfg.limit - 1) && WF(cfg, a) && AtLimit(cfg, a, w) &&
        p in a.views[w].order
    ensures p < |a.s.ks[w]| && a.s.ks[w][p].Some? && AllZero(a.s.ks[w][p].value)
    ensures p < |a.s.vs[w]| && a.s.vs[w][p].Some? && AllZero(a.s.vs[w][p].value)
  {
    EmptyUntouched(cfg);
    FilledQuietly(cfg, Empty(cfg), w, cfg.limit - 1);
    assert C.Fits(a.s, a.views[w], cfg.sizes, w, cfg.limit);
    HotBytes(cfg, a, w, p);
    EnsuredPage(cfg, Empty(cfg), w, cfg.limit - 1, w, p);
    EmptyPage(cfg, w, p);
  }

  /** A vector saved to the first page of the empty zone: nothing is evicted. */
  lemma SavedQuietly(cfg: Config, half: Half, b: Cache, z: nat, w: nat, p: nat, layer: nat, pos: nat, k: seq<F32>,
                     v: seq<F32>, c: Cache)
    requires Prepared(cfg, b, z, w, p) && b.views[z] == L.View([], []) && OnFirstPage(z, pos)
    requires Took(cfg, half, b, Save(layer, pos, k, v), c)
    ensures Prepared(cfg, c, z, w, p) && c.views[z] == L.View([0], [0.0])
    ensures K.Saves(cfg.DimsOf(z), S.ZeroPage(cfg.sizes[z]), K.Save(layer, P.SlotInPage(pos), k),
                    S.PageAt(c.s, cfg.sizes, z, 0).0, half)
  {
    FilledQuietly(cfg, b, z, 0);
    var mid := Ensured(cfg, b, z, 0);
    FirstColdStays(cfg, b, mid, z, w, p);
    assert S.Keeps(b.s, mid.s, cfg.sizes, w);
    NewZone(cfg, b, z);
    var kb, vb :| Written(cfg, half, mid, layer, pos, k, v, kb, vb, c);
    WrittenKeeps(cfg, half, mid, layer, pos, k, v, kb, vb, c);
    S.WriteBytes(mid.s, cfg.sizes, z, 0, kb, vb, z, 0);
  }

  lemma NewZone(cfg: Config, b: Cache, z: nat)
    requires WF(cfg, b) && z < 3 && b.views[z] == L.View([], [])
    ensures Ensured(cfg, b, z, 0).views[z] == L.View([0], [0.0])
  {
    var v := b.views[z];
    assert L.Grow(v) == L.View([0], [0.0]);
    assert L.GrowTo(L.Grow(v), 0, cfg.limit, cfg.coldCapacity >= 1) == L.Grow(v);
  }

  /** The zone's other pages, up to the limit: its first page is then the next to go, and holds
      what it held. */
  lemma FilledUp(cfg: Config, c: Cache, z: nat, w: nat, p: nat)
    requires Prepared(cfg, c, z, w, p) && c.views[z] == L.View([0], [0.0])
    ensures
      var d := Ensured(cfg, c, z, cfg.limit - 1);
      && Prepared(cfg, d, z, w, p) && AtLimit(cfg, d, z) && Victim(d, z) == 0
      && S.PageAt(d.s, cfg.sizes, z, 0) == S.PageAt(c.s, cfg.sizes, z, 0)
  {
    FilledQuietly(cfg, c, z, cfg.limit - 1);
    var d := Ensured(cfg, c, z, cfg.limit - 1);
    FirstColdStays(cfg, c, d, z, w, p);
    assert S.Keeps(c.s, d.s, cfg.sizes, w);
    S.BytesKeptMeans(c.s, d.s, cfg.sizes, z, 0);
    FirstIsVictim(c.views[z], cfg.limit);
  }

  lemma FirstIsVictim(v: L.View, limit: nat)
    requires v == L.View([0], [0.0]) && limit >= 1
    ensures
      var w := L.Ensure(v, limit - 1, limit, true);
      |w.order| == limit && w.order[L.VictimIndex(w)] == 0
  {
    var w := L.Ensure(v, limit - 1, limit, true);
    if limit == 1 {
      assert 0 in v.order && IndexOf(v.order, 0) == 0;
      assert w.order == [0];
    } else {
      L.QuietGrowTo(v, limit - 1, limit, true);
      R.GrowToZero(v, limit - 1, limit);
    }
    R.TailGoes(w);
  }

  /** Its eviction puts it into slot 1. */
  lemma EvictedOver(cfg: Config, d: Cache, z: nat, w: nat, p: nat)
    requires Prepared(cfg, d, z, w, p) && AtLimit(cfg, d, z) && Victim(d, z) == 0 && cfg.coldCapacity >= 2
    ensures
      var e := Ensured(cfg, d, z, cfg.limit);
      && S.HasZone(d.s, cfg.sizes, w) && S.HasZone(e.s, cfg.sizes, w) && p < |d.s.pages[w]|
      && e.s.pages[w] == d.s.pages[w] && d.s.pages[w][p] == Cold(0)
      && |S.PageAt(d.s, cfg.sizes, z, 0).0| == |S.PageAt(d.s, cfg.sizes, z, 0).1| == cfg.sizes[z]
      && e.s.file == D.WriteAt(d.s.file, D.SlotStart(1, cfg.sizes[z]),
                               S.PageAt(d.s, cfg.sizes, z, 0).0 + S.PageAt(d.s, cfg.sizes, z, 0).1)
      && |d.s.file| >= 2 * cfg.sizes[w] && !e.s.overwrote
  {
    SecondSlot(cfg, d, w, p);
    OneMore(cfg, d, z);
    HotBytes(cfg, d, z, 0);
    assert C.Fits(d.s, d.views[w], cfg.sizes, w, cfg.limit);
    assert D.SlotStart(0, cfg.sizes[w]) == 0 && S.SlotsInRange(d.s);
  }

  /** What is read where small pages were written over a page of zeros. */
  lemma ReadOver(file: seq<Byte>, q: nat, large: nat, kb: seq<Byte>, vb: seq<Byte>)
    requires 4 * q <= large <= |file| && |kb| == |vb| == q && AllZero(file)
    ensures D.ReadAt(file, 0, large) == S.ZeroPage(large)
    ensures
      var now := D.ReadAt(D.WriteAt(file, 2 * q, kb + vb), 0, large);
      |now| == large && now[2 * q..4 * q] == kb + vb
  {
  }

  /** The whole run, for any two zones, limit and layout: the page of the first zone that a vector
      was saved to is then read inside a page of the second, with a slot free all along. */
  lemma ZonesCorrupt(cfg: Config, half: Half, run: seq<Cache>, z: nat, w: nat, layer: nat, pos: nat, k: seq<F32>,
                     v: seq<F32>) returns (p: nat)
    requires cfg.limit >= 1 && Reaches(cfg, z, w) && OnFirstPage(z, pos) && cfg.coldCapacity >= 2
    requires IsRun(cfg, half, run, ClashOps(cfg, z, w, layer, pos, k, v))
    ensures K.Saves(cfg.DimsOf(z), S.ZeroPage(cfg.sizes[z]), K.Save(layer, P.SlotInPage(pos), k),
                    S.PageAt(run[4].s, cfg.sizes, z, 0).0, half)
    ensures ReadElsewhere(cfg, run[4], run[5], z, w, p)
    ensures !run[5].s.overwrote && (cfg.sizes[z] > 0 ==> run[5].s.clobbered)
  {
    var ops := ClashOps(cfg, z, w, layer, pos, k, v);
    ClashRunBegins(cfg, half, run, ops, w);
    SaveTaken(cfg, half, run, ops, 2);
    ClashRunEnds(cfg, half, run, ops, z);
    p := FirstZeros(cfg, z, w);
    SavedQuietly(cfg, half, run[2], z, w, p, layer, pos, k, v, run[3]);
    FilledUp(cfg, run[3], z, w, p);
    EvictedInside(cfg, run[4], z, w, p);
  }

  /** What page p of zone w held was zeros, and is then the first page of zone z, as it was, from
      its byte 2q on. */
  ghost predicate ReadElsewhere(cfg: Config, d: Cache, e: Cache, z: nat, w: nat, p: nat)
    requires z < 3 && w < 3
  {
    var q, page := cfg.sizes[z], S.PageAt(d.s, cfg.sizes, z, 0);
    var was, now := S.PageAt(d.s, cfg.sizes, w, p), S.PageAt(e.s, cfg.sizes, w, p);
    && was.0 == S.ZeroPage(cfg.sizes[w]) && |page.0| == |page.1| == q
    && |now.0| == cfg.sizes[w] >= 4 * q && now.0[2 * q..4 * q] == page.0 + page.1
  }

  lemma EvictedInside(cfg: Config, d: Cache, z: nat, w: nat, p: nat)
    requires Prepared(cfg, d, z, w, p) && AtLimit(cfg, d, z) && Victim(d, z) == 0 && cfg.coldCapacity >= 2
    ensures
      var e := Ensured(cfg, d, z, cfg.limit);
      ReadElsewhere(cfg, d, e, z, w, p) && !e.s.overwrote && (cfg.sizes[z] > 0 ==> e.s.clobbered)
  {
    var e, q := Ensured(cfg, d, z, cfg.limit), cfg.sizes[z];
    EvictedOver(cfg, d, z, w, p);
    if q > 0 {
      SecondClobbers(cfg, d, z, w, p);
    }
    SizesApart(cfg, z, w);
    MulMonotone(q, 4, Ratio(z, w));
    ReadInside(cfg, d, e, w, p, q, S.PageAt(d.s, cfg.sizes, z, 0));
  }

  lemma ReadInside(cfg: Config, d: Cache, e: Cache, w: nat, p: nat, q: nat, saved: S.PageBytes)
    requires w < 3 && S.HasZone(d.s, cfg.sizes, w) && S.HasZone(e.s, cfg.sizes, w) && p < |d.s.pages[w]|
    requires e.s.pages[w] == d.s.pages[w] && d.s.pages[w][p] == Cold(0) && AllZero(d.s.file)
    requires |saved.0| == |saved.1| == q && 4 * q <= cfg.sizes[w] && 2 * cfg.sizes[w] <= |d.s.file|
    requires e.s.file == D.WriteAt(d.s.file, D.SlotStart(1, q), saved.0 + saved.1)
    ensures S.PageAt(d.s, cfg.sizes, w, p).0 == S.ZeroPage(cfg.sizes[w])
    ensures
      var now := S.PageAt(e.s, cfg.sizes, w, p).0;
      |now| == cfg.sizes[w] && now[2 * q..4 * q] == saved.0 + saved.1
  {
    S.ColdBytes(d.s, cfg.sizes, w, p);
    S.ColdBytes(e.s, cfg.sizes, w, p);
    assert D.SlotStart(0, q) == 0 && D.SlotStart(1, q) == 2 * q;
    ReadOver(d.s.file, q, cfg.sizes[w], saved.0, saved.1);
  }

  /** A vector of sevens, all negative. */
  function Sevens(cfg: Config): (r: seq<F32>)
    ensures |r| == Radix(cfg.heads, cfg.headDim, 0)
  {
    seq(Radix(cfg.heads, cfg.headDim, 0), _ => -7.0)
  }

  /** f16 holds 1 and -7 exactly. */
  predicate HoldsSevens(half: Half)
  {
    half.Rounded(1.0) == 1.0 && half.Rounded(-7.0) == -7.0
  }

  /** Saving it leaves a page that is not all zeros: the two numbers of a block's header differ. */
  lemma SevensShow(cfg: Config, half: Half, z: nat, layer: nat, slot: nat, was: seq<Byte>, now: seq<Byte>)
    requires z < 3 && cfg.heads >= 1 && cfg.headDim >= 1 && HoldsSevens(half)
    requires K.Saves(cfg.DimsOf(z), was, K.Save(layer, slot, Sevens(cfg)), now, half)
    ensures exists i :: 0 <= i < |now| && now[i] != 0
  {
    var dims := cfg.DimsOf(z);
    var part, at := K.Part(dims, Sevens(cfg), 0, 0), 20 * dims.Index(layer, 0, slot, 0);
    assert dims.Has(layer, 0, slot, 0);
    K.IndexInPage(dims, layer, 0, slot, 0);
    ConstantBlock(part, -7.0);
    assert Scale(part) == 1.0;
    var block := K.BlockOf(dims, now, layer, 0, slot, 0);
    assert block.d == half.encode(1.0) && block.dmin == half.encode(-7.0);
    assert now[at] != 0 || now[at + 1] != 0 || now[at + 2] != 0 || now[at + 3] != 0;
  }

  lemma ShownInside(q: nat, k: seq<Byte>, v: seq<Byte>, was: seq<Byte>, now: seq<Byte>)
    requires |k| == |v| == q && 4 * q <= |now| && was == S.ZeroPage(|now|) && now[2 * q..4 * q] == k + v
    requires exists i :: 0 <= i < |k| && k[i] != 0
    ensures now != was
  {
    var i :| 0 <= i < |k| && k[i] != 0;
    assert now[2 * q..4 * q][i] == k[i];
    assert now[2 * q + i] != was[2 * q + i];
  }

  function SevensOps(cfg: Config, z: nat, w: nat, pos: nat): seq<Op>
    requires cfg.limit >= 1 && z < w < 3
  {
    ClashOps(cfg, z, w, 0, pos, Sevens(cfg), Sevens(cfg))
  }

  lemma FirstReached(cfg: Config, half: Half, z: nat, w: nat, ops: seq<Op>) returns (run: seq<Cache>)
    requires cfg.Sized() && cfg.limit >= 1 && Reaches(cfg, z, w) && |ops| >= 2
    requires ops[0] == EnsurePage(P.FlatPageId(w, cfg.limit - 1, cfg.maxSeqLen))
    requires ops[1] == EnsurePage(P.FlatPageId(w, cfg.limit, cfg.maxSeqLen))
    ensures IsRun(cfg, half, run, ops[..2])
  {
    run := [Empty(cfg)];
    assert ops[..0] == [];
    run := EnsureOp(cfg, half, run, ops, 0, w, cfg.limit - 1);
    run := EnsureOp(cfg, half, run, ops, 1, w, cfg.limit);
  }

  /** The run exists up to the save, */
  lemma SavedReached(cfg: Config, half: Half, z: nat, w: nat, pos: nat) returns (run: seq<Cache>)
    requires cfg.Sized() && cfg.limit >= 1 && Reaches(cfg, z, w) && OnFirstPage(z, pos) && cfg.layers >= 1
    ensures IsRun(cfg, half, run, SevensOps(cfg, z, w, pos)[..3])
  {
    var ops := SevensOps(cfg, z, w, pos);
    run := FirstReached(cfg, half, z, w, ops);
    RunFits(cfg, half, run, ops[..2], 2);
    var c, p := run[2], P.LocalPage(pos);
    var mid := Ensured(cfg, c, z, p);
    EnsuredSized(cfg, c, z, p);
    var page, slot := S.PageAt(mid.s, cfg.sizes, z, p), P.SlotInPage(pos);
    P.SlotBelowBlock(pos);
    var kb := K.SaveExists(cfg.DimsOf(z), page.0, 0, slot, Sevens(cfg), half);
    var vb := K.SaveExists(cfg.DimsOf(z), page.1, 0, slot, Sevens(cfg), half);
    var d := SaveTook(cfg, half, c, 0, pos, Sevens(cfg), Sevens(cfg), mid, kb, vb);
    RunMore(cfg, half, run, ops[..2], ops[2], d);
    assert ops[..2] + [ops[2]] == ops[..3];
    run := run + [d];
  }

  /** A run of the first i operations goes on with the next, an ensure. */
  lemma EnsureOp(cfg: Config, half: Half, run: seq<Cache>, ops: seq<Op>, i: nat, z: nat, p: nat)
    returns (longer: seq<Cache>)
    requires i < |ops| && IsRun(cfg, half, run, ops[..i]) && z < 3 && (z < 2 ==> p < P.PagesIn(z, cfg.maxSeqLen))
    requires ops[i] == EnsurePage(P.FlatPageId(z, p, cfg.maxSeqLen))
    ensures IsRun(cfg, half, longer, ops[..i + 1])
  {
    RunFits(cfg, half, run, ops[..i], i);
    P.ResolveInverts(z, p, cfg.maxSeqLen);
    var d := Ensured(cfg, run[i], z, p);
    RunMore(cfg, half, run, ops[..i], ops[i], d);
    assert ops[..i] + [ops[i]] == ops[..i + 1];
    longer := run + [d];
  }

  /** For any two zones, limit and layout there is such a run, after whose last operation, an
      ensure in the first zone, a page of the second has lost what it held. */
  lemma CorruptingRun(cfg: Config, half: Half, z: nat, w: nat, pos: nat) returns (run: seq<Cache>, p: nat)
    requires cfg.Sized() && cfg.limit >= 1 && Reaches(cfg, z, w) && OnFirstPage(z, pos) && cfg.coldCapacity >= 2
    requires SlotBytes(cfg) > 0 && HoldsSevens(half)
    ensures IsRun(cfg, half, run, SevensOps(cfg, z, w, pos)) && !run[5].s.overwrote
    ensures S.PageAt(run[5].s, cfg.sizes, w, p) != S.PageAt(run[4].s, cfg.sizes, w, p)
  {
    var ops := SevensOps(cfg, z, w, pos);
    NotFlat(cfg);
    run := SavedReached(cfg, half, z, w, pos);
    run := EnsureOp(cfg, half, run, ops, 3, z, cfg.limit - 1);
    run := EnsureOp(cfg, half, run, ops, 4, z, cfg.limit);
    assert ops[..5] == ops;
    p := ZonesCorrupt(cfg, half, run, z, w, 0, pos, Sevens(cfg), Sevens(cfg));
    var saved := S.PageAt(run[4].s, cfg.sizes, z, 0);
    SevensShow(cfg, half, z, 0, P.SlotInPage(pos), S.ZeroPage(cfg.sizes[z]), saved.0);
    ShownInside(cfg.sizes[z], saved.0, saved.1, S.PageAt(run[4].s, cfg.sizes, w, p).0,
                S.PageAt(run[5].s, cfg.sizes, w, p).0);
  }

  lemma NotFlat(cfg: Config)
    requires SlotBytes(cfg) > 0
    ensures cfg.layers >= 1 && cfg.heads >= 1 && cfg.headDim >= 1
  {
    var rows, n := cfg.layers * cfg.heads, (cfg.headDim + 31) / 32;
    assert n == 0 ==> rows * n == 0;
    assert cfg.layers == 0 || cfg.heads == 0 ==> rows == 0;
    assert rows == 0 ==> rows * n == 0;
  }
}
