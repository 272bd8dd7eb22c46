// Whole runs of the cache: ensures, saves and importance records in any order, from an empty
// cache. What is saved reads back, and when the cold store is large enough for that.
module CacheSaves {
  import opened Common
  import opened KvQuant
  import opened MixedRadix
  import C = CacheRuns
  import D = ColdStore
  import K = KvPages
  import L = LruSpec
  import P = Paging
  import S = CacheState

  /** The cache's dimensions and limits; `sizes` are its zones' page sizes, computed once. */
  datatype Layout = Layout(layers: nat, heads: nat, headDim: nat, maxSeqLen: nat, limit: nat, coldCapacity: nat,
                           sizes: seq<nat>) {
    function DimsOf(z: nat): K.Dims
      requires z < 3
    {
      K.Dims(layers, heads, P.BlockSize(z), headDim)
    }

    /** A page holds its blocks. */
    ghost predicate Sized()
    {
      |sizes| == 3 && forall z {:trigger DimsOf(z)} :: 0 <= z < 3 ==> sizes[z] == 20 * DimsOf(z).Count()
    }

    /** The cold file is sized for the largest zone's pages. */
    function FileSize(): nat
      requires |sizes| == 3
    {
      D.SlotStart(coldCapacity, Max(sizes[0], Max(sizes[1], sizes[2])))
    }
  }

  type Config = l: Layout | |l.sizes| == 3 witness Layout(0, 0, 0, 0, 0, 0, [0, 0, 0])

  function PageSizes(layers: nat, heads: nat, headDim: nat): (r: seq<nat>)
    ensures |r| == 3
  {
    seq(3, z requires 0 <= z < 3 => 20 * K.Dims(layers, heads, P.BlockSize(z), headDim).Count())
  }

  datatype Cache = Cache(s: S.State, views: seq<L.View>)

  datatype Op =
    | EnsurePage(flat: nat)
    | Save(layer: nat, pos: nat, k: seq<F32>, v: seq<F32>)
    | Record(pos: nat, weight: real)
    | Reset

  function Empty(cfg: Config): Cache
  {
    Cache(S.State([[], [], []], [[], [], []], [[], [], []], seq(cfg.FileSize(), _ => 0),
                  seq(cfg.coldCapacity, _ => false),
                  0, map[], false, false),
          [L.View([], []), L.View([], []), L.View([], [])])
  }

  // ----- the operations -----

  ghost function Ensured(cfg: Config, c: Cache, zi: nat, p: nat): Cache
    requires zi < |c.views|
  {
    Cache(C.Ensure(c.s, c.views[zi], cfg.sizes, zi, p, cfg.limit),
          c.views[zi := L.Ensure(c.views[zi], p, cfg.limit, cfg.coldCapacity >= 1)])
  }

  ghost function EnsuredFlat(cfg: Config, c: Cache, flat: nat): (r: Cache)
    requires |c.views| == 3
    ensures |r.views| == 3
  {
    var (zi, p) := P.ResolveFlat(flat, cfg.maxSeqLen);
    Ensured(cfg, c, zi, p)
  }

  /** The vectors of a position are quantised into its hot page over what its slot held. */
  ghost predicate Written(cfg: Config, half: Half, c: Cache, layer: nat, pos: nat, k: seq<F32>, v: seq<F32>,
                          kb: seq<Byte>, vb: seq<Byte>, d: Cache)
  {
    var zi, p, slot := P.ZoneIndex(pos), P.LocalPage(pos), P.SlotInPage(pos);
    && S.HasZone(c.s, cfg.sizes, zi) && p < |c.s.pages[zi]| && c.s.pages[zi][p].Hot?
    && K.Saves(cfg.DimsOf(zi), S.PageAt(c.s, cfg.sizes, zi, p).0, K.Save(layer, slot, k), kb, half)
    && K.Saves(cfg.DimsOf(zi), S.PageAt(c.s, cfg.sizes, zi, p).1, K.Save(layer, slot, v), vb, half)
    && d == c.(s := S.Write(c.s, zi, p, kb, vb))
  }

  ghost predicate Took(cfg: Config, half: Half, c: Cache, op: Op, d: Cache)
  {
    && |c.views| == 3
    && match op
       case EnsurePage(flat) =>
         d == EnsuredFlat(cfg, c, flat)
       case Save(layer, pos, k, v) =>
         exists kb, vb :: Written(cfg, half, Ensured(cfg, c, P.ZoneIndex(pos), P.LocalPage(pos)), layer, pos, k, v, kb,
                                  vb, d)
       case Record(pos, weight) =>
         d == c.(views := c.views[P.ZoneIndex(pos) := L.Record(c.views[P.ZoneIndex(pos)], P.LocalPage(pos), weight)])
       case Reset =>
         d == c.(views := [L.Forget(c.views[0]), L.Forget(c.views[1]), L.Forget(c.views[2])])
  }

  /** The zone and page an operation brings in. */
  ghost predicate Brings(cfg: Config, op: Op, zi: nat, p: nat)
  {
    match op
    case EnsurePage(flat) => (zi, p) == P.ResolveFlat(flat, cfg.maxSeqLen)
    case Save(_, pos, _, _) => zi == P.ZoneIndex(pos) && p == P.LocalPage(pos)
    case _ => false
  }

  // ----- what every operation keeps -----

  ghost predicate WF(cfg: Config, c: Cache)
  {
    && cfg.limit >= 1 && cfg.Sized() && |c.views| == 3 && |c.s.used| == cfg.coldCapacity && S.SlotsOk(c.s)
    && (forall z :: 0 <= z < 3 ==> C.Fits(c.s, c.views[z], cfg.sizes, z, cfg.limit))
    && forall z :: 0 <= z < 3 ==> L.Full(c.views[z], cfg.limit, cfg.coldCapacity >= 1)
  }

  /** The cold pages of all zones, counted from the lists. */
  function ColdCount(c: Cache): int
    requires |c.views| == 3
  {
    ColdIn(c.views[0]) + ColdIn(c.views[1]) + ColdIn(c.views[2])
  }

  function ColdIn(v: L.View): int
  {
    |v.importance| - |v.order|
  }

  /** Slots in use are as many. */
  lemma InUseIs(cfg: Config, c: Cache)
    requires WF(cfg, c) && !c.s.overwrote
    ensures C.InUse(c.s) == ColdCount(c)
  {
    var orders := [c.views[0].order, c.views[1].order, c.views[2].order];
    assert C.Fits(c.s, c.views[0], cfg.sizes, 0, cfg.limit);
    assert C.Fits(c.s, c.views[1], cfg.sizes, 1, cfg.limit);
    assert C.Fits(c.s, c.views[2], cfg.sizes, 2, cfg.limit);
    S.UsedSlotsSize(c.s, orders);
  }

  lemma EmptyOk(cfg: Config)
    requires cfg.limit >= 1 && cfg.Sized()
    ensures WF(cfg, Empty(cfg))
  {
    var c := Empty(cfg);
    assert forall z: nat, p: nat :: !S.IsCold(c.s, z, p);
    forall z | 0 <= z < 3
      ensures C.Fits(c.s, c.views[z], cfg.sizes, z, cfg.limit)
    {
      forall slot: nat | slot < |c.s.used|
        ensures D.SlotStart(slot, cfg.sizes[z]) + cfg.sizes[z] + cfg.sizes[z] <= |c.s.file|
      {
        D.SlotFits(slot, cfg.coldCapacity, cfg.sizes[z], Max(cfg.sizes[0], Max(cfg.sizes[1], cfg.sizes[2])));
      }
    }
  }

  /** What a step on one zone leaves of the others. */
  lemma OthersFit(s: S.State, t: S.State, v: L.View, sizes: seq<nat>, zi: nat, z: nat, limit: nat)
    requires C.Fits(s, v, sizes, z, limit) && C.Elsewhere(s, t, zi) && z != zi
    requires C.HasCold(t) ==> t.cursor < |t.used|
    ensures C.Fits(t, v, sizes, z, limit)
  {
    forall p | 0 <= p < |t.pages[z]| && t.pages[z][p].Hot?
      ensures C.HotPage(t, sizes, z, p)
    {
      assert C.HotPage(s, sizes, z, p);
    }
  }

  lemma EnsuredKeeps(cfg: Config, c: Cache, zi: nat, p: nat)
    requires WF(cfg, c) && zi < 3
    ensures
      var d := Ensured(cfg, c, zi, p);
      && WF(cfg, d) && S.Keeps(c.s, d.s, cfg.sizes, zi)
      && S.HasZone(c.s, cfg.sizes, zi) && S.HasZone(d.s, cfg.sizes, zi)
      && p < |d.s.pages[zi]| && d.s.pages[zi][p].Hot?
      && |d.s.pages[zi]| == Max(|c.s.pages[zi]|, p + 1)
      && (!c.s.overwrote ==>
            (d.s.overwrote <==> C.Overfull(c.views[zi], p, cfg.limit, cfg.coldCapacity, ColdCount(c))))
      && (S.Alone(c.s, zi) && d.s.overwrote && cfg.sizes[zi] > 0 ==> d.s.clobbered)
  {
    var d := Ensured(cfg, c, zi, p);
    if !c.s.overwrote {
      InUseIs(cfg, c);
    }
    C.EnsureKeeps(c.s, c.views[zi], cfg.sizes, zi, p, cfg.limit);
    C.FitsOk(c.s, c.views[zi], cfg.sizes, zi, cfg.limit);
    L.EnsureFull(c.views[zi], p, cfg.limit, cfg.coldCapacity >= 1);
    L.EnsureHead(c.views[zi], p, cfg.limit, cfg.coldCapacity >= 1);
    assert d.views[zi].order[0] == p && p in d.views[zi].order;
    forall z | 0 <= z < 3
      ensures C.Fits(d.s, d.views[z], cfg.sizes, z, cfg.limit)
    {
      if z != zi {
        OthersFit(c.s, d.s, c.views[z], cfg.sizes, zi, z, cfg.limit);
      }
    }
  }

  lemma WrittenKeeps(cfg: Config, half: Half, c: Cache, layer: nat, pos: nat, k: seq<F32>, v: seq<F32>,
                     kb: seq<Byte>, vb: seq<Byte>, d: Cache)
    requires WF(cfg, c) && Written(cfg, half, c, layer, pos, k, v, kb, vb, d)
    ensures WF(cfg, d) && d.s.pages == c.s.pages && d.s.overwrote == c.s.overwrote && d.s.clobbered == c.s.clobbered
    ensures forall z :: S.ColdOnlyIn(d.s, z) <==> S.ColdOnlyIn(c.s, z)
  {
    WriteKeeps(cfg, c, P.ZoneIndex(pos), P.LocalPage(pos), kb, vb);
  }

  /** Other bytes of the right size in a hot page change nothing else. */
  lemma WriteKeeps(cfg: Config, c: Cache, zi: nat, p: nat, kb: seq<Byte>, vb: seq<Byte>)
    requires WF(cfg, c) && zi < 3 && S.HasZone(c.s, cfg.sizes, zi) && p < |c.s.pages[zi]| && c.s.pages[zi][p].Hot?
    requires |kb| == |vb| == cfg.sizes[zi]
    ensures
      var d := c.(s := S.Write(c.s, zi, p, kb, vb));
      WF(cfg, d) && forall z :: S.ColdOnlyIn(d.s, z) <==> S.ColdOnlyIn(c.s, z)
  {
    var d := c.(s := S.Write(c.s, zi, p, kb, vb));
    S.WriteSlots(c.s, zi, p, kb, vb);
    forall z | 0 <= z < 3
      ensures C.Fits(d.s, d.views[z], cfg.sizes, z, cfg.limit)
    {
      C.WriteFits(c.s, c.views[z], cfg.sizes, zi, p, kb, vb, z, cfg.limit);
    }
  }

  lemma TookKeeps(cfg: Config, half: Half, c: Cache, op: Op, d: Cache)
    requires WF(cfg, c) && Took(cfg, half, c, op, d)
    ensures WF(cfg, d) && (c.s.clobbered ==> d.s.clobbered)
  {
    match op
    case EnsurePage(flat) =>
      var (zi, p) := P.ResolveFlat(flat, cfg.maxSeqLen);
      EnsuredKeeps(cfg, c, zi, p);
    case Save(layer, pos, k, v) =>
      var mid := Ensured(cfg, c, P.ZoneIndex(pos), P.LocalPage(pos));
      EnsuredKeeps(cfg, c, P.ZoneIndex(pos), P.LocalPage(pos));
      var kb, vb :| Written(cfg, half, mid, layer, pos, k, v, kb, vb, d);
      WrittenKeeps(cfg, half, mid, layer, pos, k, v, kb, vb, d);
    case Record(pos, weight) =>
      RecordFits(cfg, c, d);
    case Reset =>
      RecordFits(cfg, c, d);
  }

  lemma RecordFits(cfg: Config, c: Cache, d: Cache)
    requires WF(cfg, c) && d.s == c.s && |d.views| == 3
    requires forall z :: 0 <= z < 3 ==>
        d.views[z].order == c.views[z].order && |d.views[z].importance| == |c.views[z].importance|
    ensures WF(cfg, d)
  {
    forall z | 0 <= z < 3
      ensures C.Fits(d.s, d.views[z], cfg.sizes, z, cfg.limit)
    {
      assert C.Fits(c.s, c.views[z], cfg.sizes, z, cfg.limit);
    }
  }

  /** Bytes that save the vectors over the page's make the save a step. */
  lemma SaveTook(cfg: Config, half: Half, c: Cache, layer: nat, pos: nat, k: seq<F32>, v: seq<F32>, mid: Cache,
                 kb: seq<Byte>, vb: seq<Byte>)
    returns (d: Cache)
    requires WF(cfg, c) && mid == Ensured(cfg, c, P.ZoneIndex(pos), P.LocalPage(pos))
    requires
      var zi, slot := P.ZoneIndex(pos), P.SlotInPage(pos);
      var page := S.PageAt(mid.s, cfg.sizes, zi, P.LocalPage(pos));
      && K.Saves(cfg.DimsOf(zi), page.0, K.Save(layer, slot, k), kb, half)
      && K.Saves(cfg.DimsOf(zi), page.1, K.Save(layer, slot, v), vb, half)
    ensures Took(cfg, half, c, Save(layer, pos, k, v), d) && |d.views| == 3
  {
    EnsuredKeeps(cfg, c, P.ZoneIndex(pos), P.LocalPage(pos));
    d := mid.(s := S.Write(mid.s, P.ZoneIndex(pos), P.LocalPage(pos), kb, vb));
    assert Written(cfg, half, mid, layer, pos, k, v, kb, vb, d);
  }

  /** The page brought in is a whole number of blocks. */
  lemma EnsuredSized(cfg: Config, c: Cache, z: nat, p: nat)
    requires WF(cfg, c) && z < 3
    ensures
      var page := S.PageAt(Ensured(cfg, c, z, p).s, cfg.sizes, z, p);
      K.PageOf(cfg.DimsOf(z), page.0) && K.PageOf(cfg.DimsOf(z), page.1)
  {
    var d := Ensured(cfg, c, z, p);
    EnsuredKeeps(cfg, c, z, p);
    assert C.Fits(d.s, d.views[z], cfg.sizes, z, cfg.limit) && C.HotPage(d.s, cfg.sizes, z, p);
  }

  // ----- whole runs -----

  ghost predicate IsRun(cfg: Config, half: Half, run: seq<Cache>, ops: seq<Op>)
  {
    && cfg.limit >= 1 && cfg.Sized() && |run| == |ops| + 1 && run[0] == Empty(cfg)
    && forall k :: 0 <= k < |ops| ==> Took(cfg, half, run[k], ops[k], run[k + 1])
  }

  /** A run goes on with any step from its last state. */
  lemma RunMore(cfg: Config, half: Half, run: seq<Cache>, ops: seq<Op>, op: Op, d: Cache)
    requires IsRun(cfg, half, run, ops) && Took(cfg, half, run[|ops|], op, d)
    ensures IsRun(cfg, half, run + [d], ops + [op])
  {
    forall k | 0 <= k < |ops + [op]|
      ensures Took(cfg, half, (run + [d])[k], (ops + [op])[k], (run + [d])[k + 1])
    {
      if k < |ops| {
        assert Took(cfg, half, run[k], ops[k], run[k + 1]);
      }
    }
  }

  /** Every state of a run is well formed, */
  lemma {:induction false} RunFits(cfg: Config, half: Half, run: seq<Cache>, ops: seq<Op>, k: nat)
    requires IsRun(cfg, half, run, ops) && k <= |ops|
    ensures WF(cfg, run[k])
  {
    if k == 0 {
      EmptyOk(cfg);
    } else {
      RunFits(cfg, half, run, ops, k - 1);
      TookKeeps(cfg, half, run[k - 1], ops[k - 1], run[k - 1 + 1]);
    }
  }

  lemma StepMarks(cfg: Config, half: Half, run: seq<Cache>, ops: seq<Op>, k: nat)
    requires IsRun(cfg, half, run, ops) && k < |ops|
    ensures run[k].s.clobbered ==> run[k + 1].s.clobbered
  {
    RunFits(cfg, half, run, ops, k);
    TookKeeps(cfg, half, run[k], ops[k], run[k + 1]);
  }

  /** and clobbering leaves its mark to the end. */
  lemma MarkStays(cfg: Config, half: Half, run: seq<Cache>, ops: seq<Op>, k: nat, n: nat)
    requires IsRun(cfg, half, run, ops) && k <= n <= |ops|
    ensures run[k].s.clobbered ==> run[n].s.clobbered
  {
    var marks := seq(|run|, i requires 0 <= i < |run| => run[i].s.clobbered);
    forall i | 0 <= i < |marks| - 1
      ensures marks[i] ==> marks[i + 1]
    {
      StepMarks(cfg, half, run, ops, i);
    }
    OnceSet(marks, k, n);
  }

  // ----- what is saved reads back -----

  /** What an operation saves to the K bytes of a page, if anything. */
  function KSave(op: Op, z: nat, p: nat): Option<K.Save>
  {
    if op.Save? && P.ZoneIndex(op.pos) == z && P.LocalPage(op.pos) == p
    then Some(K.Save(op.layer, P.SlotInPage(op.pos), op.k))
    else None
  }

  function VSave(op: Op, z: nat, p: nat): Option<K.Save>
  {
    if op.Save? && P.ZoneIndex(op.pos) == z && P.LocalPage(op.pos) == p
    then Some(K.Save(op.layer, P.SlotInPage(op.pos), op.v))
    else None
  }

  /** Unless it clobbers, an operation changes a page, hot or cold, only by saving to it. */
  lemma TookPages(cfg: Config, half: Half, c: Cache, op: Op, d: Cache, z: nat, p: nat)
    requires WF(cfg, c) && Took(cfg, half, c, op, d) && !d.s.clobbered && z < 3
    ensures
      var was, now := S.PageAt(c.s, cfg.sizes, z, p), S.PageAt(d.s, cfg.sizes, z, p);
      && K.Steps(cfg.DimsOf(z), was.0, KSave(op, z, p), now.0, half)
      && K.Steps(cfg.DimsOf(z), was.1, VSave(op, z, p), now.1, half)
  {
    match op
    case EnsurePage(flat) =>
      var (zi, q) := P.ResolveFlat(flat, cfg.maxSeqLen);
      EnsuredPage(cfg, c, zi, q, z, p);
    case Save(layer, pos, k, v) =>
      var zi, q := P.ZoneIndex(pos), P.LocalPage(pos);
      var mid := Ensured(cfg, c, zi, q);
      var kb, vb :| Written(cfg, half, mid, layer, pos, k, v, kb, vb, d);
      EnsuredPage(cfg, c, zi, q, z, p);
      S.WriteBytes(mid.s, cfg.sizes, zi, q, kb, vb, z, p);
    case _ =>
  }

  lemma EnsuredPage(cfg: Config, c: Cache, zi: nat, q: nat, z: nat, p: nat)
    requires WF(cfg, c) && zi < 3 && z < 3 && !Ensured(cfg, c, zi, q).s.clobbered
    ensures S.PageAt(Ensured(cfg, c, zi, q).s, cfg.sizes, z, p) == S.PageAt(c.s, cfg.sizes, z, p)
  {
    EnsuredKeeps(cfg, c, zi, q);
    S.BytesKeptMeans(c.s, Ensured(cfg, c, zi, q).s, cfg.sizes, z, p);
  }

  lemma EmptyPage(cfg: Config, z: nat, p: nat)
    requires z < 3
    ensures S.PageAt(Empty(cfg).s, cfg.sizes, z, p) == (S.ZeroPage(cfg.sizes[z]), S.ZeroPage(cfg.sizes[z]))
  {
  }

  /** Operation k saves to its layer and position, and no other one does. */
  ghost predicate SavedOnce(ops: seq<Op>, k: nat)
    requires k < |ops|
  {
    && ops[k].Save?
    && forall j :: 0 <= j < |ops| && j != k && ops[j].Save? ==> ops[j].layer != ops[k].layer || ops[j].pos != ops[k].pos
  }

  lemma PageStep(cfg: Config, half: Half, run: seq<Cache>, ops: seq<Op>, z: nat, p: nat, i: nat)
    requires IsRun(cfg, half, run, ops) && z < 3 && !run[|ops|].s.clobbered && i < |ops|
    ensures
      var was, now := S.PageAt(run[i].s, cfg.sizes, z, p), S.PageAt(run[i + 1].s, cfg.sizes, z, p);
      && K.Steps(cfg.DimsOf(z), was.0, KSave(ops[i], z, p), now.0, half)
      && K.Steps(cfg.DimsOf(z), was.1, VSave(ops[i], z, p), now.1, half)
  {
    RunFits(cfg, half, run, ops, i);
    MarkStays(cfg, half, run, ops, i + 1, |ops|);
    TookPages(cfg, half, run[i], ops[i], run[i + 1], z, p);
  }

  /** The run, as the K and V bytes of one page see it. */
  lemma PageRun(cfg: Config, half: Half, run: seq<Cache>, ops: seq<Op>, z: nat, p: nat)
    returns (ks: seq<seq<Byte>>, vs: seq<seq<Byte>>, kSaves: seq<Option<K.Save>>, vSaves: seq<Option<K.Save>>)
    requires IsRun(cfg, half, run, ops) && z < 3 && !run[|ops|].s.clobbered
    ensures |ks| == |vs| == |ops| + 1 && |kSaves| == |vSaves| == |ops|
    ensures forall i :: 0 <= i <= |ops| ==> (ks[i], vs[i]) == S.PageAt(run[i].s, cfg.sizes, z, p)
    ensures forall i :: 0 <= i < |ops| ==> kSaves[i] == KSave(ops[i], z, p) && vSaves[i] == VSave(ops[i], z, p)
    ensures K.IsSaveRun(cfg.DimsOf(z), ks, kSaves, half) && K.IsSaveRun(cfg.DimsOf(z), vs, vSaves, half)
    ensures forall i :: 0 <= i < |ks[0]| ==> ks[0][i] == 0
    ensures forall i :: 0 <= i < |vs[0]| ==> vs[0][i] == 0
  {
    ks := seq(|ops| + 1, i requires 0 <= i <= |ops| => S.PageAt(run[i].s, cfg.sizes, z, p).0);
    vs := seq(|ops| + 1, i requires 0 <= i <= |ops| => S.PageAt(run[i].s, cfg.sizes, z, p).1);
    kSaves := seq(|ops|, i requires 0 <= i < |ops| => KSave(ops[i], z, p));
    vSaves := seq(|ops|, i requires 0 <= i < |ops| => VSave(ops[i], z, p));
    EmptyPage(cfg, z, p);
    forall i | 0 <= i < |ops|
      ensures K.Steps(cfg.DimsOf(z), ks[i], kSaves[i], ks[i + 1], half)
      ensures K.Steps(cfg.DimsOf(z), vs[i], vSaves[i], vs[i + 1], half)
    {
      PageStep(cfg, half, run, ops, z, p, i);
    }
    K.StepsKeepSize(cfg.DimsOf(z), ks, kSaves, half);
    K.StepsKeepSize(cfg.DimsOf(z), vs, vSaves, half);
  }

  /** In a run that has clobbered nothing, what was saved once reads back at the end within its
      blocks' bounds, whatever was ensured, evicted, reloaded and saved before and after. */
  lemma SavedVectorsReadBack(cfg: Config, half: Half, run: seq<Cache>, ops: seq<Op>, k: nat, h: nat, e: nat)
    requires IsRun(cfg, half, run, ops) && k < |ops| && SavedOnce(ops, k) && !run[|ops|].s.clobbered
    requires h < cfg.heads && e < cfg.headDim
    ensures
      var op := ops[k];
      var zi, slot := P.ZoneIndex(op.pos), P.SlotInPage(op.pos);
      var dims, page := cfg.DimsOf(zi), S.PageAt(run[|ops|].s, cfg.sizes, zi, P.LocalPage(op.pos));
      && K.PageOf(dims, page.0) && K.PageOf(dims, page.1) && op.layer < dims.layers && slot < dims.slots
      && |op.k| == |op.v| == Radix(cfg.heads, cfg.headDim, 0)
      && K.Within(half, dims, op.k, h, e, K.ReadBack(dims, page.0, half, op.layer, h, slot, e))
      && K.Within(half, dims, op.v, h, e, K.ReadBack(dims, page.1, half, op.layer, h, slot, e))
  {
    var op := ops[k];
    var zi, p := P.ZoneIndex(op.pos), P.LocalPage(op.pos);
    var ks, vs, kSaves, vSaves := PageRun(cfg, half, run, ops, zi, p);
    forall j | 0 <= j < |ops| && j != k && kSaves[j].Some?
      ensures kSaves[j].value.layer != op.layer || kSaves[j].value.slot != P.SlotInPage(op.pos)
    {
      if P.SlotInPage(ops[j].pos) == P.SlotInPage(op.pos) {
        P.PageAndSlotInjective(ops[j].pos, op.pos, cfg.maxSeqLen);
      }
    }
    K.EverySaveReadsBack(cfg.DimsOf(zi), ks, kSaves, half, k, h, e);
    K.EverySaveReadsBack(cfg.DimsOf(zi), vs, vSaves, half, k, h, e);
  }

  // ----- room to spare -----

  /** How many pages each zone may come to have. */
  type Bounds = ns: seq<nat> | |ns| == 3 witness [0, 0, 0]

  predicate Holds(c: Cache, ns: Bounds)
  {
    |c.views| == 3 && forall z :: 0 <= z < 3 ==> |c.views[z].importance| <= ns[z]
  }

  /** Nothing is ever evicted; or only zone zi may evict, and RAM and cold store hold its pages
      with a slot to spare. */
  predicate Spacious(cfg: Config, ns: Bounds, zi: nat)
  {
    && zi < 3
    && (cfg.coldCapacity == 0 ||
          (ns[zi] < cfg.limit + cfg.coldCapacity && forall z :: 0 <= z < 3 && z != zi ==> ns[z] <= cfg.limit))
  }

  /** Zone zi alone has cold pages, with room to spare for these many pages. */
  ghost predicate RoomIn(cfg: Config, c: Cache, ns: Bounds, zi: nat)
  {
    S.Alone(c.s, zi) && Holds(c, ns) && Spacious(cfg, ns, zi)
  }

  /** Every page of the cache, hot or cold, holds the same bytes. */
  ghost predicate SamePages(cfg: Config, c: Cache, d: Cache)
  {
    forall z: nat, p: nat :: z < 3 ==> S.PageAt(d.s, cfg.sizes, z, p) == S.PageAt(c.s, cfg.sizes, z, p)
  }

  /** d is c after steps that lose nothing and leave the room to spare. */
  ghost predicate Undisturbed(cfg: Config, c: Cache, d: Cache, ns: Bounds, zi: nat)
  {
    RoomIn(cfg, d, ns, zi) && d.s.clobbered == c.s.clobbered && SamePages(cfg, c, d)
  }

  lemma BytesUndisturbed(cfg: Config, c: Cache, d: Cache)
    requires forall z :: 0 <= z < 3 ==> S.BytesKept(c.s, d.s, cfg.sizes, z)
    ensures SamePages(cfg, c, d)
  {
    forall z: nat, p: nat | z < 3
      ensures S.PageAt(d.s, cfg.sizes, z, p) == S.PageAt(c.s, cfg.sizes, z, p)
    {
      S.BytesKeptMeans(c.s, d.s, cfg.sizes, z, p);
    }
  }

  lemma EnsuredHolds(cfg: Config, c: Cache, z: nat, p: nat, ns: Bounds)
    requires Holds(c, ns) && z < 3 && p < ns[z]
    ensures Holds(Ensured(cfg, c, z, p), ns)
  {
    L.EnsureHead(c.views[z], p, cfg.limit, cfg.coldCapacity >= 1);
  }

  /** With room to spare before the call, ensuring a page of any zone, within its bound, overwrites
      and clobbers nothing, and every page of the cache keeps its bytes. */
  lemma EnsuredWithRoom(cfg: Config, c: Cache, z: nat, p: nat, ns: Bounds, zi: nat)
    requires WF(cfg, c) && z < 3 && RoomIn(cfg, c, ns, zi) && p < ns[z]
    ensures Undisturbed(cfg, c, Ensured(cfg, c, z, p), ns, zi)
  {
    EnsuredHolds(cfg, c, z, p, ns);
    EnsuredKeeps(cfg, c, z, p);
    if z == zi {
      AloneColdCount(cfg, c, zi);
    } else {
      AloneColdCount(cfg, c, zi);
      C.QuietKeeps(c.s, c.views[z], cfg.sizes, z, p, cfg.limit, zi);
    }
    BytesUndisturbed(cfg, c, Ensured(cfg, c, z, p));
  }

  /** The zones without cold pages list all their pages. */
  lemma AloneColdCount(cfg: Config, c: Cache, zi: nat)
    requires WF(cfg, c) && zi < 3 && S.ColdOnlyIn(c.s, zi)
    ensures forall z :: 0 <= z < 3 && z != zi ==> ColdIn(c.views[z]) == 0
    ensures ColdCount(c) == ColdIn(c.views[zi])
  {
    forall z | 0 <= z < 3 && z != zi
      ensures ColdIn(c.views[z]) == 0
    {
      assert C.Fits(c.s, c.views[z], cfg.sizes, z, cfg.limit);
      assert S.ColdPages(c.s, z, c.views[z].order) == {} by {
        forall p: nat | p < |c.s.pages[z]|
          ensures p in c.views[z].order
        {
          assert !S.IsCold(c.s, z, p);
        }
      }
      S.ColdPagesSize(c.s, z, c.views[z].order);
    }
  }

  // ----- how large the cold store must be -----

  /** The pages an operation brings in are within the zones' bounds. */
  ghost predicate OpIn(cfg: Config, op: Op, ns: Bounds)
  {
    forall z: nat, p: nat :: Brings(cfg, op, z, p) ==> z < 3 && p < ns[z]
  }

  ghost predicate OnlyIn(cfg: Config, ops: seq<Op>, ns: Bounds)
  {
    forall i :: 0 <= i < |ops| ==> OpIn(cfg, ops[i], ns)
  }

  /** An operation is an ensure, at most, and then changes no slot and brings no page in. */
  lemma TookFrom(cfg: Config, half: Half, c: Cache, op: Op, d: Cache, ns: Bounds) returns (mid: Cache)
    requires WF(cfg, c) && Took(cfg, half, c, op, d) && OpIn(cfg, op, ns)
    ensures mid == c || exists z: nat, p: nat :: z < 3 && p < ns[z] && mid == Ensured(cfg, c, z, p)
    ensures WF(cfg, mid) && d.s.overwrote == mid.s.overwrote && d.s.clobbered == mid.s.clobbered
    ensures |d.views| == 3 && forall z :: 0 <= z < 3 ==> |d.views[z].importance| == |mid.views[z].importance|
    ensures S.SlotsOk(d.s) && forall z :: S.ColdOnlyIn(d.s, z) <==> S.ColdOnlyIn(mid.s, z)
  {
    match op
    case EnsurePage(flat) =>
      var (z, p) := P.ResolveFlat(flat, cfg.maxSeqLen);
      assert Brings(cfg, op, z, p);
      EnsuredKeeps(cfg, c, z, p);
      mid := d;
    case Save(layer, pos, k, v) =>
      var z, p := P.ZoneIndex(pos), P.LocalPage(pos);
      assert Brings(cfg, op, z, p);
      EnsuredKeeps(cfg, c, z, p);
      mid := Ensured(cfg, c, z, p);
      var kb, vb :| Written(cfg, half, mid, layer, pos, k, v, kb, vb, d);
      WrittenKeeps(cfg, half, mid, layer, pos, k, v, kb, vb, d);
    case _ =>
      mid := c;
  }

  lemma SpaciousStep(cfg: Config, half: Half, c: Cache, op: Op, d: Cache, ns: Bounds, zi: nat)
    requires WF(cfg, c) && Took(cfg, half, c, op, d) && OpIn(cfg, op, ns) && RoomIn(cfg, c, ns, zi)
    ensures RoomIn(cfg, d, ns, zi) && d.s.clobbered == c.s.clobbered
  {
    var mid := TookFrom(cfg, half, c, op, d, ns);
    if mid != c {
      var z: nat, p: nat :| z < 3 && p < ns[z] && mid == Ensured(cfg, c, z, p);
      EnsuredWithRoom(cfg, c, z, p, ns, zi);
    }
  }

  /** Where only one zone may evict, with room to spare, no run overwrites or clobbers. */
  lemma {:induction false} SpaciousRun(cfg: Config, half: Half, run: seq<Cache>, ops: seq<Op>, ns: Bounds, zi: nat,
                                       k: nat)
    requires IsRun(cfg, half, run, ops) && OnlyIn(cfg, ops, ns) && Spacious(cfg, ns, zi) && k <= |ops|
    ensures RoomIn(cfg, run[k], ns, zi) && !run[k].s.clobbered
  {
    if k == 0 {
      EmptyOk(cfg);
      assert forall z: nat, p: nat :: !S.IsCold(run[0].s, z, p);
    } else {
      SpaciousRun(cfg, half, run, ops, ns, zi, k - 1);
      RunFits(cfg, half, run, ops, k - 1);
      SpaciousStep(cfg, half, run[k - 1], ops[k - 1], run[k - 1 + 1], ns, zi);
    }
  }

  /** So there, every vector saved once reads back, after any run. */
  lemma SpaciousReadsBack(cfg: Config, half: Half, run: seq<Cache>, ops: seq<Op>, ns: Bounds, zi: nat, k: nat,
                          h: nat, e: nat)
    requires IsRun(cfg, half, run, ops) && OnlyIn(cfg, ops, ns) && Spacious(cfg, ns, zi)
    requires k < |ops| && SavedOnce(ops, k) && h < cfg.heads && e < cfg.headDim
    ensures
      var op := ops[k];
      var z, slot := P.ZoneIndex(op.pos), P.SlotInPage(op.pos);
      var dims, page := cfg.DimsOf(z), S.PageAt(run[|ops|].s, cfg.sizes, z, P.LocalPage(op.pos));
      && K.PageOf(dims, page.0) && K.PageOf(dims, page.1) && op.layer < dims.layers && slot < dims.slots
      && |op.k| == |op.v| == Radix(cfg.heads, cfg.headDim, 0)
      && K.Within(half, dims, op.k, h, e, K.ReadBack(dims, page.0, half, op.layer, h, slot, e))
      && K.Within(half, dims, op.v, h, e, K.ReadBack(dims, page.1, half, op.layer, h, slot, e))
  {
    SpaciousRun(cfg, half, run, ops, ns, zi, |ops|);
    SavedVectorsReadBack(cfg, half, run, ops, k, h, e);
  }

  // ----- no slot is overwritten -----

  /** The cold pages all zones come to have together, at their bounds. */
  function Needs(cfg: Config, ns: Bounds): nat
  {
    C.Excess(ns[0], cfg.limit) + C.Excess(ns[1], cfg.limit) + C.Excess(ns[2], cfg.limit)
  }

  lemma EnsuredWithSlots(cfg: Config, c: Cache, z: nat, p: nat, ns: Bounds)
    requires WF(cfg, c) && z < 3 && p < ns[z] && Holds(c, ns) && !c.s.overwrote
    requires cfg.coldCapacity == 0 || Needs(cfg, ns) < cfg.coldCapacity
    ensures Holds(Ensured(cfg, c, z, p), ns) && !Ensured(cfg, c, z, p).s.overwrote
  {
    EnsuredHolds(cfg, c, z, p, ns);
    EnsuredKeeps(cfg, c, z, p);
    if cfg.coldCapacity >= 1 {
      NotOverfull(cfg, c, z, p, ns);
    }
  }

  lemma NotOverfull(cfg: Config, c: Cache, z: nat, p: nat, ns: Bounds)
    requires WF(cfg, c) && z < 3 && p < ns[z] && Holds(c, ns) && 1 <= cfg.coldCapacity &&
        Needs(cfg, ns) < cfg.coldCapacity
    ensures !C.Overfull(c.views[z], p, cfg.limit, cfg.coldCapacity, ColdCount(c))
  {
    ColdInIs(cfg, c, 0);
    ColdInIs(cfg, c, 1);
    ColdInIs(cfg, c, 2);
    var a0, a1, a2 := |c.views[0].importance|, |c.views[1].importance|, |c.views[2].importance|;
    assert a0 <= ns[0] && a1 <= ns[1] && a2 <= ns[2];
    var m0, m1, m2 := if z == 0 then Max(a0, p + 1) else a0, if z == 1 then Max(a1, p + 1) else a1,
        if z == 2 then Max(a2, p + 1) else a2;
    ExcessMonotone(a0, m0, ns[0], cfg.limit);
    ExcessMonotone(a1, m1, ns[1], cfg.limit);
    ExcessMonotone(a2, m2, ns[2], cfg.limit);
  }

  lemma ColdInIs(cfg: Config, c: Cache, z: nat)
    requires WF(cfg, c) && z < 3 && cfg.coldCapacity >= 1
    ensures ColdIn(c.views[z]) == C.Excess(|c.views[z].importance|, cfg.limit)
  {
    assert L.Full(c.views[z], cfg.limit, true);
  }

  lemma ExcessMonotone(a: nat, b: nat, c: nat, limit: nat)
    requires a <= b <= c
    ensures C.Excess(a, limit) <= C.Excess(b, limit) <= C.Excess(c, limit)
  {
  }

  lemma {:induction false} SlotsSuffice(cfg: Config, half: Half, run: seq<Cache>, ops: seq<Op>, ns: Bounds, k: nat)
    requires IsRun(cfg, half, run, ops) && OnlyIn(cfg, ops, ns) && k <= |ops|
    requires cfg.coldCapacity == 0 || Needs(cfg, ns) < cfg.coldCapacity
    ensures Holds(run[k], ns) && !run[k].s.overwrote
  {
    if k > 0 {
      SlotsSuffice(cfg, half, run, ops, ns, k - 1);
      RunFits(cfg, half, run, ops, k - 1);
      var c, d := run[k - 1], run[k - 1 + 1];
      var mid := TookFrom(cfg, half, c, ops[k - 1], d, ns);
      if mid != c {
        var z: nat, p: nat :| z < 3 && p < ns[z] && mid == Ensured(cfg, c, z, p);
        EnsuredWithSlots(cfg, c, z, p, ns);
      }
    }
  }

  /** Bounds that the zones have pages for. */
  predicate Allotted(cfg: Config, ns: Bounds)
  {
    forall z :: 0 <= z < 2 ==> ns[z] <= P.PagesIn(z, cfg.maxSeqLen)
  }

  /** A run goes on by ensuring any page within the bounds. */
  lemma RunEnsures(cfg: Config, half: Half, run: seq<Cache>, ops: seq<Op>, ns: Bounds, z: nat, p: nat)
    returns (longer: seq<Cache>, more: seq<Op>)
    requires IsRun(cfg, half, run, ops) && OnlyIn(cfg, ops, ns) && Allotted(cfg, ns) && z < 3 && p < ns[z]
    ensures IsRun(cfg, half, longer, more) && OnlyIn(cfg, more, ns) && WF(cfg, run[|ops|])
    ensures longer[|more|] == Ensured(cfg, run[|ops|], z, p)
  {
    var op := EnsurePage(P.FlatPageId(z, p, cfg.maxSeqLen));
    P.ResolveInverts(z, p, cfg.maxSeqLen);
    RunFits(cfg, half, run, ops, |ops|);
    var d := Ensured(cfg, run[|ops|], z, p);
    RunMore(cfg, half, run, ops, op, d);
    longer, more := run + [d], ops + [op];
  }

  lemma StartRun(cfg: Config, half: Half, ns: Bounds) returns (run: seq<Cache>, ops: seq<Op>)
    requires cfg.Sized() && cfg.limit >= 1
    ensures IsRun(cfg, half, run, ops) && OnlyIn(cfg, ops, ns) && run[|ops|] == Empty(cfg)
  {
    run, ops := [Empty(cfg)], [];
  }

  /** All zones filled to their bounds, unless a slot is overwritten before. */
  lemma FilledRun(cfg: Config, half: Half, ns: Bounds) returns (run: seq<Cache>, ops: seq<Op>)
    requires cfg.Sized() && cfg.limit >= 1 && Allotted(cfg, ns)
    ensures IsRun(cfg, half, run, ops) && OnlyIn(cfg, ops, ns) && |run[|ops|].views| == 3
    ensures forall z :: 0 <= z < 3 ==> |run[|ops|].views[z].importance| == ns[z]
  {
    run, ops := StartRun(cfg, half, ns);
    for z := 0 to 3
      invariant IsRun(cfg, half, run, ops) && OnlyIn(cfg, ops, ns) && |run[|ops|].views| == 3
      invariant forall w :: 0 <= w < 3 ==> |run[|ops|].views[w].importance| == if w < z then ns[w] else 0
    {
      if ns[z] > 0 {
        L.EnsureHead(run[|ops|].views[z], ns[z] - 1, cfg.limit, cfg.coldCapacity >= 1);
        run, ops := RunEnsures(cfg, half, run, ops, ns, z, ns[z] - 1);
      }
    }
  }

  /** Some page of a zone with more pages than the limit is cold. */
  lemma SomeCold(cfg: Config, c: Cache, z: nat) returns (p: nat)
    requires WF(cfg, c) && z < 3 && cfg.coldCapacity >= 1 && |c.views[z].importance| > cfg.limit
    ensures p < |c.views[z].importance| && p !in c.views[z].order
  {
    assert C.Fits(c.s, c.views[z], cfg.sizes, z, cfg.limit) && L.Full(c.views[z], cfg.limit, true);
    S.ColdPagesSize(c.s, z, c.views[z].order);
    p :| p in S.ColdPages(c.s, z, c.views[z].order);
  }

  lemma OverwritingRun(cfg: Config, half: Half, ns: Bounds) returns (run: seq<Cache>, ops: seq<Op>)
    requires cfg.Sized() && cfg.limit >= 1 && Allotted(cfg, ns) && 1 <= cfg.coldCapacity <= Needs(cfg, ns)
    ensures IsRun(cfg, half, run, ops) && OnlyIn(cfg, ops, ns) && run[|ops|].s.overwrote
  {
    run, ops := FilledRun(cfg, half, ns);
    var c := run[|ops|];
    if !c.s.overwrote {
      RunFits(cfg, half, run, ops, |ops|);
      ColdInIs(cfg, c, 0);
      ColdInIs(cfg, c, 1);
      ColdInIs(cfg, c, 2);
      var z := if ns[0] > cfg.limit then 0 else if ns[1] > cfg.limit then 1 else 2;
      var p := SomeCold(cfg, c, z);
      EnsuredKeeps(cfg, c, z, p);
      run, ops := RunEnsures(cfg, half, run, ops, ns, z, p);
    }
  }

  /** Runs within the zones' bounds overwrite no slot exactly when the cold pages of all zones
      together leave one to spare: an eviction comes before the slot of the page reloaded is
      freed, so a cold store that just holds them all is one short. */
  lemma OverwriteExact(cfg: Config, half: Half, ns: Bounds)
    requires cfg.Sized() && cfg.limit >= 1 && Allotted(cfg, ns)
    ensures (forall run: seq<Cache>, ops: seq<Op> ::
               IsRun(cfg, half, run, ops) && OnlyIn(cfg, ops, ns) ==> !run[|ops|].s.overwrote)
       <==> cfg.coldCapacity == 0 || Needs(cfg, ns) < cfg.coldCapacity
  {
    if cfg.coldCapacity == 0 || Needs(cfg, ns) < cfg.coldCapacity {
      forall run: seq<Cache>, ops: seq<Op> | IsRun(cfg, half, run, ops) && OnlyIn(cfg, ops, ns)
        ensures !run[|ops|].s.overwrote
      {
        SlotsSuffice(cfg, half, run, ops, ns, |ops|);
      }
    } else {
      var run, ops := OverwritingRun(cfg, half, ns);
    }
  }

  // ----- flat ranges -----

  /** How many pages each zone has, once the flat ids start..upto - 1 are brought in. */
  function RangeBounds(c: Cache, start: nat, upto: nat): Bounds
    requires |c.views| == 3
  {
    seq(3, z requires 0 <= z < 3 =>
      if P.CountIn(z, start, upto) == 0 then |c.views[z].importance|
      else Max(|c.views[z].importance|, P.FirstIn(z, start) + P.CountIn(z, start, upto)))
  }

  lemma RangeIn(cfg: Config, c: Cache, start: nat, upto: nat, flat: nat)
    requires |c.views| == 3 && start <= flat < upto
    ensures
      var (z, p) := P.ResolveFlat(flat, cfg.maxSeqLen);
      p < RangeBounds(c, start, upto)[z]
  {
    P.RangeCovered(start, upto, flat, cfg.maxSeqLen);
  }

  lemma UndisturbedNext(cfg: Config, c: Cache, mid: Cache, flat: nat, ns: Bounds, zi: nat)
    requires WF(cfg, mid) && Undisturbed(cfg, c, mid, ns, zi)
    requires P.ResolveFlat(flat, cfg.maxSeqLen).1 < ns[P.ResolveFlat(flat, cfg.maxSeqLen).0]
    ensures Undisturbed(cfg, c, EnsuredFlat(cfg, mid, flat), ns, zi)
  {
    var (z, p) := P.ResolveFlat(flat, cfg.maxSeqLen);
    var d := Ensured(cfg, mid, z, p);
    EnsuredWithRoom(cfg, mid, z, p, ns, zi);
    forall w: nat, q: nat | w < 3
      ensures S.PageAt(d.s, cfg.sizes, w, q) == S.PageAt(c.s, cfg.sizes, w, q)
    {
      assert S.PageAt(mid.s, cfg.sizes, w, q) == S.PageAt(c.s, cfg.sizes, w, q);
    }
  }

  lemma FlatKeeps(cfg: Config, c: Cache, flat: nat)
    requires WF(cfg, c)
    ensures S.KeepsBytes(c.s, EnsuredFlat(cfg, c, flat).s, cfg.sizes) && WF(cfg, EnsuredFlat(cfg, c, flat))
  {
    var (zi, p) := P.ResolveFlat(flat, cfg.maxSeqLen);
    EnsuredKeeps(cfg, c, zi, p);
  }
}
