// The importances of the cache's pages over whole runs.
module CacheScores {
  import opened Common
  import opened KvQuant
  import opened CacheSaves
  import L = LruSpec
  import P = Paging

  /** An operation brings in page p of zone z, or a later one of that zone. */
  ghost predicate Reaches(cfg: Config, op: Op, z: nat, p: nat)
  {
    exists q: nat :: q >= p && Brings(cfg, op, z, q)
  }

  /** One of the first n operations does. */
  ghost predicate Reached(cfg: Config, ops: seq<Op>, n: nat, z: nat, p: nat)
    requires n <= |ops|
  {
    exists k :: 0 <= k < n && Reaches(cfg, ops[k], z, p)
  }

  /** The weights that the first n operations record for positions on page p of zone z, since the last
      reset, and since there is such a page. */
  ghost function RecordedSince(cfg: Config, ops: seq<Op>, n: nat, z: nat, p: nat): real
    requires n <= |ops|
  {
    if n == 0 then 0.0
    else
      match ops[n - 1]
      case Reset => 0.0
      case Record(pos, weight) =>
        RecordedSince(cfg, ops, n - 1, z, p) +
            if P.ZoneIndex(pos) == z && P.LocalPage(pos) == p && Reached(cfg, ops, n - 1, z, p) then weight else 0.0
      case _ => RecordedSince(cfg, ops, n - 1, z, p)
  }

  lemma {:induction false} NothingRecorded(cfg: Config, ops: seq<Op>, n: nat, z: nat, p: nat)
    requires n <= |ops| && !Reached(cfg, ops, n, z, p)
    ensures RecordedSince(cfg, ops, n, z, p) == 0.0
  {
    if n > 0 {
      NothingRecorded(cfg, ops, n - 1, z, p);
    }
  }

  /** An operation's effect on a page's importance. */
  ghost predicate Scored(cfg: Config, op: Op, v: L.View, w: L.View, z: nat, p: nat)
  {
    && (p < |w.importance| <==> p < |v.importance| || Reaches(cfg, op, z, p))
    && (p < |w.importance| ==>
          w.importance[p] ==
            match op
            case Reset => 0.0
            case Record(pos, weight) =>
              v.importance[p] + if P.ZoneIndex(pos) == z && P.LocalPage(pos) == p then weight else 0.0
            case _ => if p < |v.importance| then v.importance[p] else 0.0)
  }

  lemma EnsuredScores(cfg: Config, c: Cache, zi: nat, q: nat, z: nat, p: nat)
    requires zi < 3 && z < 3 && |c.views| == 3
    ensures
      var v, w := c.views[z], Ensured(cfg, c, zi, q).views[z];
      && (p < |w.importance| <==> p < |v.importance| || (z == zi && p <= q))
      && (p < |w.importance| ==> w.importance[p] == if p < |v.importance| then v.importance[p] else 0.0)
  {
    L.EnsureHead(c.views[zi], q, cfg.limit, cfg.coldCapacity >= 1);
    L.GrowToScores(c.views[zi], q, cfg.limit, cfg.coldCapacity >= 1, p);
  }

  lemma TookScores(cfg: Config, half: Half, c: Cache, op: Op, d: Cache, z: nat, p: nat)
    requires Took(cfg, half, c, op, d) && z < 3
    ensures |d.views| == 3 && Scored(cfg, op, c.views[z], d.views[z], z, p)
  {
    match op
    case EnsurePage(flat) =>
      var (zi, q) := P.ResolveFlat(flat, cfg.maxSeqLen);
      EnsuredScores(cfg, c, zi, q, z, p);
      assert Brings(cfg, op, zi, q);
    case Save(layer, pos, k, v) =>
      EnsuredScores(cfg, c, P.ZoneIndex(pos), P.LocalPage(pos), z, p);
      assert Brings(cfg, op, P.ZoneIndex(pos), P.LocalPage(pos));
    case Record(pos, weight) =>
    case Reset =>
  }

  /** Over every run, a page is there once it or a later one of its zone has been brought in; and its
      importance is the sum of what has been recorded for its positions since the last reset, however
      often it was evicted and reloaded in between. */
  lemma {:induction false} EveryRecordCounts(cfg: Config, half: Half, run: seq<Cache>, ops: seq<Op>, n: nat, z: nat,
                                             p: nat)
    requires IsRun(cfg, half, run, ops) && n <= |ops| && z < 3
    ensures
      && |run[n].views| == 3
      && (p < |run[n].views[z].importance| <==> Reached(cfg, ops, n, z, p))
      && (p < |run[n].views[z].importance| ==>
            run[n].views[z].importance[p] == RecordedSince(cfg, ops, n, z, p))
    decreases n
  {
    if n > 0 {
      EveryRecordCounts(cfg, half, run, ops, n - 1, z, p);
      assert Took(cfg, half, run[n - 1], ops[n - 1], run[n - 1 + 1]);
      TookScores(cfg, half, run[n - 1], ops[n - 1], run[n], z, p);
      if !Reached(cfg, ops, n - 1, z, p) {
        NothingRecorded(cfg, ops, n - 1, z, p);
      }
    }
  }
}
