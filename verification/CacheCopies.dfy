// Whole runs of the cache with the FP32 copies that readers use: what they see of what was saved.
module CacheCopies {
  import opened Common
  import opened KvQuant
  import opened MixedRadix
  import opened CacheSaves
  import opened CacheZones
  import C = CacheRuns
  import K = KvPages
  import P = Paging
  import S = CacheState
  import V = KvCopies

  type F32Pages = seq<seq<Option<Copies>>>

  /** The cache with its pages' copies, by zone and local page id. */
  datatype Seen = Seen(cache: Cache, f32: F32Pages)

  /** An operation of the cache, its saves by `save_at`; a save by `save`; or an ensure of a page with
      its copies, by `ensure_pages_hot_f32`. */
  datatype Act = Plain(op: Op) | Fresh(layer: nat, pos: nat, k: seq<F32>, v: seq<F32>) | Fill(flat: nat)

  function OpOf(act: Act): Op
  {
    match act
    case Plain(op) => op
    case Fresh(layer, pos, k, v) => Save(layer, pos, k, v)
    case Fill(flat) => EnsurePage(flat)
  }

  function CopyAt(f32: F32Pages, z: nat, p: nat): Option<Copies>
  {
    if z < |f32| && p < |f32[z]| then f32[z][p] else None
  }

  predicate IsHot(s: S.State, z: nat, p: nat)
  {
    z < |s.pages| && p < |s.pages[z]| && s.pages[z][p].Hot?
  }

  /** The copies that pages still hot keep. */
  function Left(f32: F32Pages, s: S.State, z: nat, p: nat): Option<Copies>
  {
    if IsHot(s, z, p) then CopyAt(f32, z, p) else None
  }

  /** The copies of a page, if it has any, get the saved vectors. */
  ghost predicate Refreshes(dims: K.Dims, was: Option<Copies>, layer: nat, slot: nat, k: seq<F32>, v: seq<F32>,
                            now: Option<Copies>)
  {
    if was.None? then now.None?
    else
      && now.Some? && V.Refreshed(dims, was.value.k, K.Save(layer, slot, k), now.value.k)
      && V.Refreshed(dims, was.value.v, K.Save(layer, slot, v), now.value.v)
  }

  /** A page without copies gets them from its bytes. */
  ghost predicate Fills(dims: K.Dims, half: Half, was: Option<Copies>, bytes: S.PageBytes, now: Option<Copies>)
  {
    && now.Some?
    && if was.Some? then now == was
       else
         && K.F32PageOf(dims, |now.value.k|) && K.F32PageOf(dims, |now.value.v|)
         && K.PageOf(dims, bytes.0) && K.AllDequantised(dims, bytes.0, now.value.k, half)
         && K.PageOf(dims, bytes.1) && K.AllDequantised(dims, bytes.1, now.value.v, half)
  }

  /** What an act does to the copies of one page. */
  ghost predicate CopyActed(cfg: Config, half: Half, a: Seen, act: Act, b: Seen, z: nat, p: nat)
    requires z < 3
  {
    var was, now, dims := Left(a.f32, b.cache.s, z, p), CopyAt(b.f32, z, p), cfg.DimsOf(z);
    match act
    case Plain(_) => now == was
    case Fresh(layer, pos, k, v) =>
      if z == P.ZoneIndex(pos) && p == P.LocalPage(pos) then Refreshes(dims, was, layer, P.SlotInPage(pos), k, v, now)
      else now == was
    case Fill(flat) =>
      if (z, p) == P.ResolveFlat(flat, cfg.maxSeqLen)
      then Fills(dims, half, was, S.PageAt(b.cache.s, cfg.sizes, z, p), now)
      else now == was
  }

  ghost predicate Acted(cfg: Config, half: Half, a: Seen, act: Act, b: Seen)
  {
    && Took(cfg, half, a.cache, OpOf(act), b.cache)
    && |b.f32| == 3 && forall z: nat, p: nat :: z < 3 ==> CopyActed(cfg, half, a, act, b, z, p)
  }

  ghost predicate IsSeenRun(cfg: Config, half: Half, run: seq<Seen>, acts: seq<Act>)
  {
    && cfg.limit >= 1 && cfg.Sized() && |run| == |acts| + 1 && run[0] == Seen(Empty(cfg), [[], [], []])
    && forall i :: 0 <= i < |acts| ==> Acted(cfg, half, run[i], acts[i], run[i + 1])
  }

  /** Its caches are a run. */
  function Caches(run: seq<Seen>): seq<Cache>
  {
    seq(|run|, i requires 0 <= i < |run| => run[i].cache)
  }

  function Ops(acts: seq<Act>): seq<Op>
  {
    seq(|acts|, i requires 0 <= i < |acts| => OpOf(acts[i]))
  }

  lemma CachesRun(cfg: Config, half: Half, run: seq<Seen>, acts: seq<Act>)
    requires IsSeenRun(cfg, half, run, acts)
    ensures IsRun(cfg, half, Caches(run), Ops(acts))
  {
    forall i | 0 <= i < |acts|
      ensures Took(cfg, half, Caches(run)[i], Ops(acts)[i], Caches(run)[i + 1])
    {
      assert Acted(cfg, half, run[i], acts[i], run[i + 1]);
    }
  }

  // ----- one page's share of a run -----

  /** The key or the value buffers of a page. */
  function PageSeen(cfg: Config, a: Seen, z: nat, p: nat, key: bool): V.Page
    requires z < 3
  {
    var bytes, copy := S.PageAt(a.cache.s, cfg.sizes, z, p), CopyAt(a.f32, z, p);
    V.Page(if key then bytes.0 else bytes.1,
           if copy.Some? then Some(if key then copy.value.k else copy.value.v) else None)
  }

  function ActOn(cfg: Config, act: Act, s: S.State, z: nat, p: nat, key: bool): V.Act
  {
    match act
    case Plain(Save(layer, pos, k, v)) =>
      if z == P.ZoneIndex(pos) && p == P.LocalPage(pos)
      then V.Saved(K.Save(layer, P.SlotInPage(pos), if key then k else v), false)
      else Otherwise(s, z, p)
    case Fresh(layer, pos, k, v) =>
      if z == P.ZoneIndex(pos) && p == P.LocalPage(pos)
      then V.Saved(K.Save(layer, P.SlotInPage(pos), if key then k else v), true)
      else Otherwise(s, z, p)
    case Fill(flat) => if (z, p) == P.ResolveFlat(flat, cfg.maxSeqLen) then V.Filled else Otherwise(s, z, p)
    case _ => Otherwise(s, z, p)
  }

  function Otherwise(s: S.State, z: nat, p: nat): V.Act
  {
    if IsHot(s, z, p) then V.Idle else V.Dropped
  }

  /** Copies have the size of their page. */
  ghost predicate CopiesOk(cfg: Config, f32: F32Pages)
  {
    forall z: nat, p: nat :: z < 3 && CopyAt(f32, z, p).Some? ==>
      && K.F32PageOf(cfg.DimsOf(z), |CopyAt(f32, z, p).value.k|)
      && K.F32PageOf(cfg.DimsOf(z), |CopyAt(f32, z, p).value.v|)
  }

  lemma ActedOk(cfg: Config, half: Half, a: Seen, act: Act, b: Seen)
    requires Acted(cfg, half, a, act, b) && CopiesOk(cfg, a.f32)
    ensures CopiesOk(cfg, b.f32)
  {
    forall z: nat, p: nat | z < 3 && CopyAt(b.f32, z, p).Some?
      ensures K.F32PageOf(cfg.DimsOf(z), |CopyAt(b.f32, z, p).value.k|)
      ensures K.F32PageOf(cfg.DimsOf(z), |CopyAt(b.f32, z, p).value.v|)
    {
      assert CopyActed(cfg, half, a, act, b, z, p);
    }
  }

  /** The page an operation brings in is hot. */
  lemma BroughtHot(cfg: Config, half: Half, c: Cache, op: Op, d: Cache, z: nat, p: nat)
    requires WF(cfg, c) && Took(cfg, half, c, op, d) && Brings(cfg, op, z, p)
    ensures IsHot(d.s, z, p)
  {
    EnsuredKeeps(cfg, c, z, p);
    if op.Save? {
      var mid := Ensured(cfg, c, z, p);
      var kb, vb :| Written(cfg, half, mid, op.layer, op.pos, op.k, op.v, kb, vb, d);
      WrittenKeeps(cfg, half, mid, op.layer, op.pos, op.k, op.v, kb, vb, d);
    }
  }

  /** An act on a page, from what it does to its bytes and to its copies. */
  lemma OthersActed(cfg: Config, half: Half, a: Seen, act: Act, b: Seen, z: nat, p: nat, key: bool)
    requires z < 3 && CopyActed(cfg, half, a, act, b, z, p) && !Brings(cfg, OpOf(act), z, p)
    requires V.PageOk(cfg.DimsOf(z), PageSeen(cfg, a, z, p, key))
    requires PageSeen(cfg, b, z, p, key).q4 == PageSeen(cfg, a, z, p, key).q4
    ensures V.Acted(cfg.DimsOf(z), half, PageSeen(cfg, a, z, p, key), ActOn(cfg, act, b.cache.s, z, p, key),
                    PageSeen(cfg, b, z, p, key))
  {
  }

  lemma SaveActed(cfg: Config, half: Half, a: Seen, act: Act, b: Seen, z: nat, p: nat, key: bool)
    requires z < 3 && CopyActed(cfg, half, a, act, b, z, p) && OpOf(act).Save? && Brings(cfg, OpOf(act), z, p)
    requires IsHot(b.cache.s, z, p)
    requires V.PageOk(cfg.DimsOf(z), PageSeen(cfg, a, z, p, key)) &&
        V.PageOk(cfg.DimsOf(z), PageSeen(cfg, b, z, p, key))
    requires
      var op := OpOf(act);
      K.Saves(cfg.DimsOf(z), PageSeen(cfg, a, z, p, key).q4,
              K.Save(op.layer, P.SlotInPage(op.pos), if key then op.k else op.v), PageSeen(cfg, b, z, p, key).q4, half)
    ensures V.Acted(cfg.DimsOf(z), half, PageSeen(cfg, a, z, p, key), ActOn(cfg, act, b.cache.s, z, p, key),
                    PageSeen(cfg, b, z, p, key))
  {
  }

  lemma FillActed(cfg: Config, half: Half, a: Seen, act: Act, b: Seen, z: nat, p: nat, key: bool)
    requires z < 3 && CopyActed(cfg, half, a, act, b, z, p) && OpOf(act).EnsurePage? && Brings(cfg, OpOf(act), z, p)
    requires IsHot(b.cache.s, z, p)
    requires V.PageOk(cfg.DimsOf(z), PageSeen(cfg, a, z, p, key)) &&
        V.PageOk(cfg.DimsOf(z), PageSeen(cfg, b, z, p, key))
    requires PageSeen(cfg, b, z, p, key).q4 == PageSeen(cfg, a, z, p, key).q4
    ensures V.Acted(cfg.DimsOf(z), half, PageSeen(cfg, a, z, p, key), ActOn(cfg, act, b.cache.s, z, p, key),
                    PageSeen(cfg, b, z, p, key))
  {
  }

  /** What an act that does not clobber does to the bytes of one buffer. */
  lemma BytesActed(cfg: Config, half: Half, a: Seen, act: Act, b: Seen, z: nat, p: nat, key: bool)
    requires WF(cfg, a.cache) && Acted(cfg, half, a, act, b) && !b.cache.s.clobbered && z < 3
    ensures
      var op := OpOf(act);
      var was, now := PageSeen(cfg, a, z, p, key).q4, PageSeen(cfg, b, z, p, key).q4;
      if op.Save? && Brings(cfg, op, z, p) then
        && K.Saves(cfg.DimsOf(z), was, K.Save(op.layer, P.SlotInPage(op.pos), if key then op.k else op.v), now, half)
        && K.PageOf(cfg.DimsOf(z), now)
      else now == was
  {
    TookPages(cfg, half, a.cache, OpOf(act), b.cache, z, p);
  }

  /** Unless it clobbers, an act on the cache is an act on every page. */
  lemma ActedOn(cfg: Config, half: Half, a: Seen, act: Act, b: Seen, z: nat, p: nat, key: bool)
    requires WF(cfg, a.cache) && Acted(cfg, half, a, act, b) && !b.cache.s.clobbered && z < 3 && CopiesOk(cfg, a.f32)
    requires K.PageOf(cfg.DimsOf(z), PageSeen(cfg, a, z, p, key).q4)
    ensures V.Acted(cfg.DimsOf(z), half, PageSeen(cfg, a, z, p, key), ActOn(cfg, act, b.cache.s, z, p, key),
                    PageSeen(cfg, b, z, p, key))
  {
    assert CopyActed(cfg, half, a, act, b, z, p);
    ActedOk(cfg, half, a, act, b);
    BytesActed(cfg, half, a, act, b, z, p, key);
    if !Brings(cfg, OpOf(act), z, p) {
      OthersActed(cfg, half, a, act, b, z, p, key);
    } else {
      BroughtHot(cfg, half, a.cache, OpOf(act), b.cache, z, p);
      if OpOf(act).Save? {
        SaveActed(cfg, half, a, act, b, z, p, key);
      } else {
        FillActed(cfg, half, a, act, b, z, p, key);
      }
    }
  }

  lemma {:induction false} RunOk(cfg: Config, half: Half, run: seq<Seen>, acts: seq<Act>, j: nat, k: nat)
    requires IsSeenRun(cfg, half, run, acts) && k <= j <= |acts| && !run[j].cache.s.clobbered
    ensures WF(cfg, run[k].cache) && CopiesOk(cfg, run[k].f32) && !run[k].cache.s.clobbered
  {
    CachesRun(cfg, half, run, acts);
    RunFits(cfg, half, Caches(run), Ops(acts), k);
    MarkStays(cfg, half, Caches(run), Ops(acts), k, j);
    if k > 0 {
      RunOk(cfg, half, run, acts, j, k - 1);
      assert Acted(cfg, half, run[k - 1], acts[k - 1], run[k - 1 + 1]);
      ActedOk(cfg, half, run[k - 1], acts[k - 1], run[k]);
    }
  }

  function PagesSeen(cfg: Config, run: seq<Seen>, z: nat, p: nat, key: bool, j: nat): (r: seq<V.Page>)
    requires z < 3 && j < |run|
    ensures |r| == j + 1
  {
    seq(j + 1, i requires 0 <= i <= j => PageSeen(cfg, run[i], z, p, key))
  }

  function ActsOn(cfg: Config, run: seq<Seen>, acts: seq<Act>, z: nat, p: nat, key: bool, j: nat): (r: seq<V.Act>)
    requires z < 3 && j <= |acts| && |run| == |acts| + 1
    ensures |r| == j
  {
    seq(j, i requires 0 <= i < j => ActOn(cfg, acts[i], run[i + 1].cache.s, z, p, key))
  }

  /** At first a page has no copies, and zero bytes. */
  lemma NewPage(cfg: Config, z: nat, p: nat, key: bool)
    requires z < 3 && cfg.Sized()
    ensures
      var page := PageSeen(cfg, Seen(Empty(cfg), [[], [], []]), z, p, key);
      && V.PageOk(cfg.DimsOf(z), page) && page.copy.None? && forall i :: 0 <= i < |page.q4| ==> page.q4[i] == 0
  {
    EmptyPage(cfg, z, p);
  }

  lemma {:induction false} PageSized(cfg: Config, half: Half, run: seq<Seen>, acts: seq<Act>, z: nat, p: nat, key: bool,
                                     j: nat, k: nat)
    requires IsSeenRun(cfg, half, run, acts) && k <= j <= |acts| && !run[j].cache.s.clobbered && z < 3
    ensures K.PageOf(cfg.DimsOf(z), PageSeen(cfg, run[k], z, p, key).q4)
  {
    if k == 0 {
      NewPage(cfg, z, p, key);
    } else {
      PageSized(cfg, half, run, acts, z, p, key, j, k - 1);
      StepOn(cfg, half, run, acts, z, p, key, j, k - 1);
      StepSized(cfg, half, run, acts, z, p, key, k - 1, k);
    }
  }

  lemma StepSized(cfg: Config, half: Half, run: seq<Seen>, acts: seq<Act>, z: nat, p: nat, key: bool, i: nat, k: nat)
    requires |run| == |acts| + 1 && i < |acts| && z < 3 && k == i + 1 && StepSeen(cfg, half, run, acts, z, p, key, i)
    ensures K.PageOf(cfg.DimsOf(z), PageSeen(cfg, run[k], z, p, key).q4)
  {
  }

  /** What step i of the run does to one buffer of one page. */
  ghost predicate StepSeen(cfg: Config, half: Half, run: seq<Seen>, acts: seq<Act>, z: nat, p: nat, key: bool, i: nat)
    requires |run| == |acts| + 1 && i < |acts| && z < 3
  {
    V.Acted(cfg.DimsOf(z), half, PageSeen(cfg, run[i], z, p, key),
            ActOn(cfg, acts[i], run[i + 1].cache.s, z, p, key), PageSeen(cfg, run[i + 1], z, p, key))
  }

  lemma StepOn(cfg: Config, half: Half, run: seq<Seen>, acts: seq<Act>, z: nat, p: nat, key: bool, j: nat, i: nat)
    requires IsSeenRun(cfg, half, run, acts) && i < j <= |acts| && !run[j].cache.s.clobbered && z < 3
    requires K.PageOf(cfg.DimsOf(z), PageSeen(cfg, run[i], z, p, key).q4)
    ensures StepSeen(cfg, half, run, acts, z, p, key, i)
  {
    RunOk(cfg, half, run, acts, j, i);
    RunOk(cfg, half, run, acts, j, i + 1);
    assert Acted(cfg, half, run[i], acts[i], run[i + 1]);
    ActedOn(cfg, half, run[i], acts[i], run[i + 1], z, p, key);
  }

  lemma StepsSeen(cfg: Config, half: Half, run: seq<Seen>, acts: seq<Act>, z: nat, p: nat, key: bool, j: nat)
    requires |run| == |acts| + 1 && j <= |acts| && z < 3 && cfg.Sized() && run[0] == Seen(Empty(cfg), [[], [], []])
    requires forall i :: 0 <= i < j ==> StepSeen(cfg, half, run, acts, z, p, key, i)
    ensures V.IsPageRun(cfg.DimsOf(z), half, PagesSeen(cfg, run, z, p, key, j), ActsOn(cfg, run, acts, z, p, key, j))
  {
    NewPage(cfg, z, p, key);
    forall i | 0 <= i < j
      ensures V.Acted(cfg.DimsOf(z), half, PagesSeen(cfg, run, z, p, key, j)[i],
                      ActsOn(cfg, run, acts, z, p, key, j)[i],
                      PagesSeen(cfg, run, z, p, key, j)[i + 1])
    {
      assert StepSeen(cfg, half, run, acts, z, p, key, i);
    }
  }

  /** The run, as one buffer of one page sees it. */
  lemma PageRuns(cfg: Config, half: Half, run: seq<Seen>, acts: seq<Act>, z: nat, p: nat, key: bool, j: nat)
    requires IsSeenRun(cfg, half, run, acts) && j <= |acts| && !run[j].cache.s.clobbered && z < 3
    ensures V.IsPageRun(cfg.DimsOf(z), half, PagesSeen(cfg, run, z, p, key, j), ActsOn(cfg, run, acts, z, p, key, j))
  {
    forall i | 0 <= i < j
      ensures StepSeen(cfg, half, run, acts, z, p, key, i)
    {
      PageSized(cfg, half, run, acts, z, p, key, j, i);
      StepOn(cfg, half, run, acts, z, p, key, j, i);
    }
    StepsSeen(cfg, half, run, acts, z, p, key, j);
  }

  /** Act k saves to its layer and position, and no other one does. */
  ghost predicate SavedOnce(acts: seq<Act>, k: nat)
    requires k < |acts|
  {
    && OpOf(acts[k]).Save?
    && forall j :: 0 <= j < |acts| && j != k && OpOf(acts[j]).Save? ==>
         OpOf(acts[j]).layer != OpOf(acts[k]).layer || OpOf(acts[j]).pos != OpOf(acts[k]).pos
  }

  /** At some moment from..to the page has no copies. */
  ghost predicate WithoutCopies(run: seq<Seen>, z: nat, p: nat, from: nat, to: nat)
    requires to < |run|
  {
    exists i :: from <= i <= to && CopyAt(run[i].f32, z, p).None?
  }

  /** What a reader of the key copies, or the value copies, sees at moment j at the layer and position
      of the save k: the vector saved; but after a `save_at` into copies that have not been dropped
      since, what they held before. */
  ghost predicate SeesSaved(cfg: Config, half: Half, run: seq<Seen>, acts: seq<Act>, k: nat, j: nat, key: bool, h: nat,
                            e: nat)
    requires |run| == |acts| + 1 && k < j <= |acts| && OpOf(acts[k]).Save?
  {
    var op := OpOf(acts[k]);
    var z, p, slot, src := P.ZoneIndex(op.pos), P.LocalPage(op.pos), P.SlotInPage(op.pos), if key then op.k else op.v;
    var dims, was, now := cfg.DimsOf(z), PageSeen(cfg, run[k], z, p, key), PageSeen(cfg, run[j], z, p, key);
    && V.PageOk(dims, was) && V.PageOk(dims, now) && now.copy.Some?
    && |src| == Radix(dims.heads, dims.headDim, 0) && V.Has(dims, op.layer, h, slot, e)
    && if acts[k].Fresh? || WithoutCopies(run, z, p, k, j)
       then K.Within(half, dims, src, h, e, V.Read(dims, now, op.layer, h, slot, e))
       else was.copy.Some? && V.Read(dims, now, op.layer, h, slot, e) == V.Read(dims, was, op.layer, h, slot, e)
  }

  /** Over every run that has clobbered nothing: a key and a value saved once are what every later
      reader of the page's copies sees, within their blocks' bounds, whatever is ensured, evicted,
      reloaded and saved in between; unless they were saved by `save_at` and the page has had its
      copies ever since before. */
  lemma EverySaveSeen(cfg: Config, half: Half, run: seq<Seen>, acts: seq<Act>, k: nat, j: nat, key: bool, h: nat,
                      e: nat)
    requires IsSeenRun(cfg, half, run, acts) && k < j <= |acts| && SavedOnce(acts, k) && !run[j].cache.s.clobbered
    requires h < cfg.heads && e < cfg.headDim
    requires CopyAt(run[j].f32, P.ZoneIndex(OpOf(acts[k]).pos), P.LocalPage(OpOf(acts[k]).pos)).Some?
    ensures SeesSaved(cfg, half, run, acts, k, j, key, h, e)
  {
    var op := OpOf(acts[k]);
    var z, p := P.ZoneIndex(op.pos), P.LocalPage(op.pos);
    var pages, on := PagesSeen(cfg, run, z, p, key, j), ActsOn(cfg, run, acts, z, p, key, j);
    PageRuns(cfg, half, run, acts, z, p, key, j);
    OnceOnPage(cfg, run, acts, k, j, key);
    V.EverySaveSeen(cfg.DimsOf(z), half, pages, on, k, j, h, e);
    assert V.WithoutCopy(pages, k, j) <==> WithoutCopies(run, z, p, k, j) by {
      forall i | k <= i <= j
        ensures pages[i].copy.None? <==> CopyAt(run[i].f32, z, p).None?
      {
      }
    }
  }

  lemma OnceOnPage(cfg: Config, run: seq<Seen>, acts: seq<Act>, k: nat, j: nat, key: bool)
    requires |run| == |acts| + 1 && k < j <= |acts| && SavedOnce(acts, k)
    ensures
      var op := OpOf(acts[k]);
      var z, p := P.ZoneIndex(op.pos), P.LocalPage(op.pos);
      var on := ActsOn(cfg, run, acts, z, p, key, j);
      && V.SavedOnce(on, k) && on[k].refresh == acts[k].Fresh?
      && on[k].save == K.Save(op.layer, P.SlotInPage(op.pos), if key then op.k else op.v)
  {
    var op := OpOf(acts[k]);
    var z, p := P.ZoneIndex(op.pos), P.LocalPage(op.pos);
    var on := ActsOn(cfg, run, acts, z, p, key, j);
    forall i | 0 <= i < j && i != k && on[i].Saved?
      ensures on[i].save.layer != op.layer || on[i].save.slot != P.SlotInPage(op.pos)
    {
      if P.SlotInPage(OpOf(acts[i]).pos) == P.SlotInPage(op.pos) {
        P.PageAndSlotInjective(OpOf(acts[i]).pos, op.pos, cfg.maxSeqLen);
      }
    }
  }

  /** So it is in every run where only one zone may evict, with room to spare. */
  lemma SpaciousSeen(cfg: Config, half: Half, run: seq<Seen>, acts: seq<Act>, ns: Bounds, zi: nat, k: nat, j: nat,
                     key: bool, h: nat, e: nat)
    requires IsSeenRun(cfg, half, run, acts) && OnlyIn(cfg, Ops(acts), ns) && Spacious(cfg, ns, zi)
    requires k < j <= |acts| && SavedOnce(acts, k) && h < cfg.heads && e < cfg.headDim
    requires CopyAt(run[j].f32, P.ZoneIndex(OpOf(acts[k]).pos), P.LocalPage(OpOf(acts[k]).pos)).Some?
    ensures SeesSaved(cfg, half, run, acts, k, j, key, h, e)
  {
    CachesRun(cfg, half, run, acts);
    SpaciousRun(cfg, half, Caches(run), Ops(acts), ns, zi, j);
    EverySaveSeen(cfg, half, run, acts, k, j, key, h, e);
  }

  // ----- recognising acts from what a step changes -----

  /** Only hot pages have copies. */
  ghost predicate CopiesHot(a: Seen)
  {
    |a.f32| == 3 && forall z: nat, p: nat :: CopyAt(a.f32, z, p).Some? ==> IsHot(a.cache.s, z, p)
  }

  /** Pages still hot have the copies they had, and new pages have none. */
  ghost predicate Kept(order: seq<nat>, before: seq<Option<Copies>>, after: seq<Option<Copies>>)
  {
    && |before| <= |after| && (forall q :: q in order && q < |before| ==> after[q] == before[q])
    && forall q :: |before| <= q < |after| ==> after[q].None?
  }

  /** An ensure of a flat page: copies of evicted pages are dropped. */
  lemma EnsureActed(cfg: Config, half: Half, a: Seen, flat: nat, b: Seen)
    requires WF(cfg, a.cache) && b.cache == EnsuredFlat(cfg, a.cache, flat) && CopiesHot(a) && CopiesHot(b)
    requires
      var zi := P.ResolveFlat(flat, cfg.maxSeqLen).0;
      && (forall z :: 0 <= z < 3 && z != zi ==> b.f32[z] == a.f32[z])
      && Kept(b.cache.views[zi].order, a.f32[zi], b.f32[zi])
    ensures Acted(cfg, half, a, Plain(EnsurePage(flat)), b)
  {
    var (zi, p) := P.ResolveFlat(flat, cfg.maxSeqLen);
    C.EnsureKeeps(a.cache.s, a.cache.views[zi], cfg.sizes, zi, p, cfg.limit);
    assert C.Fits(b.cache.s, b.cache.views[zi], cfg.sizes, zi, cfg.limit);
    assert C.Elsewhere(a.cache.s, b.cache.s, zi);
    forall z: nat, q: nat | z < 3
      ensures CopyActed(cfg, half, a, Plain(EnsurePage(flat)), b, z, q)
    {
      assert z != zi ==> IsHot(b.cache.s, z, q) == IsHot(a.cache.s, z, q);
    }
  }

  /** A page's own copies are made, if it has none. */
  ghost predicate Filled(cfg: Config, half: Half, b: Seen, zi: nat, p: nat, c: Seen)
  {
    && zi < 3 && c.cache == b.cache && |c.f32| == 3
    && (forall z: nat, q: nat :: z < 3 && (z, q) != (zi, p) ==> CopyAt(c.f32, z, q) == CopyAt(b.f32, z, q))
    && Fills(cfg.DimsOf(zi), half, CopyAt(b.f32, zi, p), S.PageAt(c.cache.s, cfg.sizes, zi, p), CopyAt(c.f32, zi, p))
  }

  /** Other copies for one page. */
  function Put(f32: F32Pages, zi: nat, p: nat, copies: Copies): (r: F32Pages)
    requires zi < |f32| && p < |f32[zi]|
    ensures |r| == |f32|
  {
    f32[zi := f32[zi][p := Some(copies)]]
  }

  lemma PutFilled(cfg: Config, half: Half, b: Seen, zi: nat, p: nat, copies: Copies, c: Seen)
    requires zi < 3 && |b.f32| == 3 && p < |b.f32[zi]| && b.f32[zi][p].None?
    requires c.cache == b.cache && c.f32 == Put(b.f32, zi, p, copies)
    requires Fills(cfg.DimsOf(zi), half, None, S.PageAt(b.cache.s, cfg.sizes, zi, p), Some(copies))
    ensures Filled(cfg, half, b, zi, p, c)
  {
  }

  lemma PutOk(cfg: Config, f32: F32Pages, zi: nat, p: nat, copies: Copies)
    requires zi < 3 && |f32| == 3 && p < |f32[zi]| && CopiesOk(cfg, f32)
    requires K.F32PageOf(cfg.DimsOf(zi), |copies.k|) && K.F32PageOf(cfg.DimsOf(zi), |copies.v|)
    ensures CopiesOk(cfg, Put(f32, zi, p, copies))
  {
    var now := Put(f32, zi, p, copies);
    forall z: nat, q: nat | z < 3 && CopyAt(now, z, q).Some?
      ensures K.F32PageOf(cfg.DimsOf(z), |CopyAt(now, z, q).value.k|)
      ensures K.F32PageOf(cfg.DimsOf(z), |CopyAt(now, z, q).value.v|)
    {
      assert (z, q) != (zi, p) ==> CopyAt(now, z, q) == CopyAt(f32, z, q);
    }
  }

  lemma FillActedBy(cfg: Config, half: Half, a: Seen, flat: nat, b: Seen, c: Seen)
    requires Acted(cfg, half, a, Plain(EnsurePage(flat)), b)
    requires var (zi, p) := P.ResolveFlat(flat, cfg.maxSeqLen); Filled(cfg, half, b, zi, p, c)
    ensures Acted(cfg, half, a, Fill(flat), c)
  {
    forall z: nat, q: nat | z < 3
      ensures CopyActed(cfg, half, a, Fill(flat), c, z, q)
    {
      assert CopyActed(cfg, half, a, Plain(EnsurePage(flat)), b, z, q);
    }
  }

  /** Or the page is saved to, and its copies are left as they are. */
  lemma SaveActedBy(cfg: Config, half: Half, a: Seen, flat: nat, b: Seen, op: Op, c: Seen)
    requires Acted(cfg, half, a, Plain(EnsurePage(flat)), b) && c.f32 == b.f32
    requires op.Save? && Took(cfg, half, a.cache, op, c.cache) && c.cache.s.pages == b.cache.s.pages
    ensures Acted(cfg, half, a, Plain(op), c)
  {
    forall z: nat, q: nat | z < 3
      ensures CopyActed(cfg, half, a, Plain(op), c, z, q)
    {
      assert CopyActed(cfg, half, a, Plain(EnsurePage(flat)), b, z, q);
    }
  }

  /** A page's copies are refreshed, if it has any. */
  ghost predicate Renewed(cfg: Config, b: Seen, layer: nat, pos: nat, k: seq<F32>, v: seq<F32>, c: Seen)
  {
    var zi, p := P.ZoneIndex(pos), P.LocalPage(pos);
    && c.cache == b.cache && |c.f32| == 3
    && (forall z: nat, q: nat :: z < 3 && (z, q) != (zi, p) ==> CopyAt(c.f32, z, q) == CopyAt(b.f32, z, q))
    && Refreshes(cfg.DimsOf(zi), CopyAt(b.f32, zi, p), layer, P.SlotInPage(pos), k, v, CopyAt(c.f32, zi, p))
  }

  lemma PutRenewed(cfg: Config, b: Seen, layer: nat, pos: nat, k: seq<F32>, v: seq<F32>, copies: Copies, c: Seen)
    requires
      var zi, p := P.ZoneIndex(pos), P.LocalPage(pos);
      && |b.f32| == 3 && p < |b.f32[zi]| && b.f32[zi][p].Some?
      && c.cache == b.cache && c.f32 == Put(b.f32, zi, p, copies)
      && Refreshes(cfg.DimsOf(zi), b.f32[zi][p], layer, P.SlotInPage(pos), k, v, Some(copies))
    ensures Renewed(cfg, b, layer, pos, k, v, c)
  {
  }

  /** Or they are refreshed. */
  lemma FreshActedBy(cfg: Config, half: Half, a: Seen, op: Op, b: Seen, c: Seen)
    requires op.Save? && Acted(cfg, half, a, Plain(op), b) && Renewed(cfg, b, op.layer, op.pos, op.k, op.v, c)
    ensures Acted(cfg, half, a, Fresh(op.layer, op.pos, op.k, op.v), c)
  {
    forall z: nat, q: nat | z < 3
      ensures CopyActed(cfg, half, a, Fresh(op.layer, op.pos, op.k, op.v), c, z, q)
    {
      assert CopyActed(cfg, half, a, Plain(op), b, z, q);
    }
  }

  /** Steps that bring no page in leave all copies. */
  lemma OtherActedBy(cfg: Config, half: Half, a: Seen, op: Op, b: Seen)
    requires CopiesHot(a) && b.f32 == a.f32 && b.cache.s == a.cache.s
    requires Took(cfg, half, a.cache, op, b.cache)
    ensures Acted(cfg, half, a, Plain(op), b)
  {
    forall z: nat, q: nat | z < 3
      ensures CopyActed(cfg, half, a, Plain(op), b, z, q)
    {
    }
  }

  lemma KeptOk(cfg: Config, a: Seen, b: Seen, zi: nat, order: seq<nat>)
    requires zi < 3 && |a.f32| == 3 && CopiesOk(cfg, a.f32) && CopiesHot(b)
    requires forall z :: 0 <= z < 3 && z != zi ==> b.f32[z] == a.f32[z]
    requires Kept(order, a.f32[zi], b.f32[zi]) && forall p: nat :: IsHot(b.cache.s, zi, p) ==> p in order
    ensures CopiesOk(cfg, b.f32)
  {
    forall z: nat, p: nat | z < 3 && CopyAt(b.f32, z, p).Some?
      ensures CopyAt(a.f32, z, p) == CopyAt(b.f32, z, p)
    {
    }
  }

  /** A run from a to b by these acts. */
  ghost predicate Leads(cfg: Config, half: Half, a: Seen, run: seq<Seen>, acts: seq<Act>, b: Seen)
  {
    && |run| == |acts| + 1 && run[0] == a && run[|acts|] == b
    && forall i :: 0 <= i < |acts| ==> Acted(cfg, half, run[i], acts[i], run[i + 1])
  }

  lemma LeadsOn(cfg: Config, half: Half, a: Seen, run: seq<Seen>, acts: seq<Act>, b: Seen, act: Act, c: Seen)
    requires Leads(cfg, half, a, run, acts, b) && Acted(cfg, half, b, act, c)
    ensures Leads(cfg, half, a, run + [c], acts + [act], c)
  {
    forall i | 0 <= i < |acts + [act]|
      ensures Acted(cfg, half, (run + [c])[i], (acts + [act])[i], (run + [c])[i + 1])
    {
      if i < |acts| {
        assert Acted(cfg, half, run[i], acts[i], run[i + 1]);
      }
    }
  }

  /** The acts of an ensure of a flat range. */
  function Fills32(start: nat, upto: nat): seq<Act>
  {
    if start < upto then seq(upto - start, i requires 0 <= i < upto - start => Fill(start + i)) else []
  }
}
