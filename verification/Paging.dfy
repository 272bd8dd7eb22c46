// Positions, zones, pages and slots of the tiered cache.
module Paging {

  const ZONE_STARTS: seq<nat> := [0, 4096, 131072]
  const ZONE_BLOCK_SIZES: seq<nat> := [32, 128, 1024]

  function ZoneIndex(pos: nat): (zi: nat)
    ensures zi < 3
  {
    if pos < 4096 then 0 else if pos < 131072 then 1 else 2
  }

  function ZoneStart(zi: nat): nat
    requires zi < 3
  {
    ZONE_STARTS[zi]
  }

  function BlockSize(zi: nat): (bs: nat)
    requires zi < 3
    ensures bs > 0
  {
    ZONE_BLOCK_SIZES[zi]
  }

  function BlockSizeFor(pos: nat): nat
  {
    BlockSize(ZoneIndex(pos))
  }

  /** Whole blocks before the x-th position of a zone. Zone by zone, so that the solver divides
      by literals; BlocksAndRest gives the general form. */
  function Blocks(zi: nat, x: nat): nat
    requires zi < 3
  {
    if zi == 0 then x / 32 else if zi == 1 then x / 128 else x / 1024
  }

  function Rest(zi: nat, x: nat): nat
    requires zi < 3
  {
    if zi == 0 then x % 32 else if zi == 1 then x % 128 else x % 1024
  }

  lemma BlocksAndRest(zi: nat, x: nat)
    requires zi < 3
    ensures Blocks(zi, x) == x / BlockSize(zi) && Rest(zi, x) == x % BlockSize(zi)
  {
  }

  /** Pages allotted to a zone. Only the last zone depends on the sequence length. */
  function PagesIn(zi: nat, maxSeqLen: nat): nat
    requires zi < 3
  {
    var end := if zi + 1 < 3 then ZONE_STARTS[zi + 1] else maxSeqLen;
    var coverage := if end > ZoneStart(zi) then end - ZoneStart(zi) else 0;
    if coverage > 0 then Blocks(zi, coverage + BlockSize(zi) - 1) else 0
  }

  /** A zone's pages are those that some position lies on: any of its positions in the first two
      zones, and one below the sequence length in the last. */
  lemma PagesInExact(zi: nat, local: nat, maxSeqLen: nat)
    requires zi < 3
    ensures local < PagesIn(zi, maxSeqLen) <==>
        exists pos: nat :: ZoneIndex(pos) == zi && LocalPage(pos) == local && (zi == 2 ==> pos < maxSeqLen)
  {
    var pos := ZoneStart(zi) + BlockSize(zi) * local;
    if local < PagesIn(zi, maxSeqLen) {
      FirstOnPage(zi, local);
      assert ZoneIndex(pos) == zi && LocalPage(pos) == local;
    }
  }

  lemma FirstOnPage(zi: nat, local: nat)
    requires zi < 3
    ensures Blocks(zi, BlockSize(zi) * local) == local
  {
  }

  /** Flat id of a zone's first page: the pages of the zones before it. */
  function ZoneOffset(zi: nat, maxSeqLen: nat): nat
    requires zi < 3
  {
    if zi == 0 then 0 else ZoneOffset(zi - 1, maxSeqLen) + PagesIn(zi - 1, maxSeqLen)
  }

  lemma ZoneOffsetsAre(maxSeqLen: nat)
    ensures ZoneOffset(0, maxSeqLen) == 0 && ZoneOffset(1, maxSeqLen) == 128 && ZoneOffset(2, maxSeqLen) == 1120
  {
    assert ZoneOffset(2, maxSeqLen) == ZoneOffset(1, maxSeqLen) + PagesIn(1, maxSeqLen);
  }

  function FlatPageId(zi: nat, local: nat, maxSeqLen: nat): nat
    requires zi < 3
  {
    ZoneOffset(zi, maxSeqLen) + local
  }

  /** Zone and local page of a flat id: the last zone that starts at or before it. */
  function ResolveFrom(flat: nat, zi: nat, maxSeqLen: nat): (r: (nat, nat))
    requires zi < 3
    ensures r.0 < 3
  {
    if flat >= ZoneOffset(zi, maxSeqLen) then (zi, flat - ZoneOffset(zi, maxSeqLen))
    else ResolveFrom(flat, zi - 1, maxSeqLen)
  }

  function ResolveFlat(flat: nat, maxSeqLen: nat): (r: (nat, nat))
    ensures r.0 < 3
  {
    ResolveFrom(flat, 2, maxSeqLen)
  }

  function LocalPage(pos: nat): nat
  {
    var zi := ZoneIndex(pos);
    Blocks(zi, pos - ZoneStart(zi))
  }

  function SlotInPage(pos: nat): nat
  {
    var zi := ZoneIndex(pos);
    Rest(zi, pos - ZoneStart(zi))
  }

  function PageId(pos: nat, maxSeqLen: nat): nat
  {
    FlatPageId(ZoneIndex(pos), LocalPage(pos), maxSeqLen)
  }

  function PageStartFor(pos: nat): (start: nat)
    ensures start <= pos
  {
    assert SlotInPage(pos) <= pos - ZoneStart(ZoneIndex(pos));
    pos - SlotInPage(pos)
  }

  lemma ResolveFlatIs(flat: nat, maxSeqLen: nat)
    ensures ResolveFlat(flat, maxSeqLen)
         == if flat >= 1120 then (2, flat - 1120) else if flat >= 128 then (1, flat - 128) else (0, flat)
  {
    ZoneOffsetsAre(maxSeqLen);
    assert ResolveFrom(flat, 2, maxSeqLen)
        == if flat >= 1120 then (2, flat - 1120) else ResolveFrom(flat, 1, maxSeqLen);
    assert ResolveFrom(flat, 1, maxSeqLen) == if flat >= 128 then (1, flat - 128) else ResolveFrom(flat, 0, maxSeqLen);
  }

  /** A zone's local pages below the next zone's offset are exactly what flat ids resolve to. */
  lemma ResolveInverts(zi: nat, local: nat, maxSeqLen: nat)
    requires zi < 3 && (zi < 2 ==> local < PagesIn(zi, maxSeqLen))
    ensures ResolveFlat(FlatPageId(zi, local, maxSeqLen), maxSeqLen) == (zi, local)
  {
    ZoneOffsetsAre(maxSeqLen);
    ResolveFlatIs(FlatPageId(zi, local, maxSeqLen), maxSeqLen);
    assert PagesIn(0, maxSeqLen) == 128 && PagesIn(1, maxSeqLen) == 992;
  }

  lemma FlatInverts(flat: nat, maxSeqLen: nat)
    ensures
      var (zi, local) := ResolveFlat(flat, maxSeqLen);
      FlatPageId(zi, local, maxSeqLen) == flat && (zi < 2 ==> local < PagesIn(zi, maxSeqLen))
  {
    ZoneOffsetsAre(maxSeqLen);
    ResolveFlatIs(flat, maxSeqLen);
    assert PagesIn(0, maxSeqLen) == 128 && PagesIn(1, maxSeqLen) == 992;
  }

  /** A position's page id resolves to its zone and local page. */
  lemma PageIdResolves(pos: nat, maxSeqLen: nat)
    ensures ResolveFlat(PageId(pos, maxSeqLen), maxSeqLen) == (ZoneIndex(pos), LocalPage(pos))
  {
    assert PagesIn(0, maxSeqLen) == 128 && PagesIn(1, maxSeqLen) == 992;
    ResolveInverts(ZoneIndex(pos), LocalPage(pos), maxSeqLen);
  }

  lemma SlotBelowBlock(pos: nat)
    ensures SlotInPage(pos) < BlockSizeFor(pos)
  {
  }

  /** Every position has its own page and slot. */
  lemma PageAndSlotInjective(p: nat, q: nat, maxSeqLen: nat)
    requires PageId(p, maxSeqLen) == PageId(q, maxSeqLen) && SlotInPage(p) == SlotInPage(q)
    ensures p == q
  {
    ZoneOffsetsAre(maxSeqLen);
  }

  /** A page lies in one zone: the positions of its block share its zone, id and start, and
      take its slots in order. */
  lemma PageHoldsItsBlock(pos: nat, t: nat, maxSeqLen: nat)
    requires PageStartFor(pos) <= t < PageStartFor(pos) + BlockSizeFor(pos)
    ensures ZoneIndex(t) == ZoneIndex(pos) && PageId(t, maxSeqLen) == PageId(pos, maxSeqLen)
    ensures PageStartFor(t) == PageStartFor(pos) && SlotInPage(t) == t - PageStartFor(pos)
  {
  }

  /** Blocks end where the rest is nothing. */
  lemma RestOfBlocks(zi: nat, q: nat)
    requires zi < 3
    ensures zi == 0 ==> Rest(zi, 32 * q) == 0
    ensures zi == 1 ==> Rest(zi, 128 * q) == 0
    ensures zi == 2 ==> Rest(zi, 1024 * q) == 0
  {
  }

  /** The position after a page is the start of the next page, also across zones. */
  lemma NextPageStarts(pos: nat)
    ensures PageStartFor(PageStartFor(pos) + BlockSizeFor(pos)) == PageStartFor(pos) + BlockSizeFor(pos)
  {
    var zi := ZoneIndex(pos);
    var q := Blocks(zi, pos - ZoneStart(zi));
    var next := PageStartFor(pos) + BlockSizeFor(pos);
    if zi == 0 {
      assert next == 32 * (q + 1);
      RestOfBlocks(0, q + 1);
    } else if zi == 1 {
      assert next - 4096 == 128 * (q + 1);
      RestOfBlocks(1, q + 1);
    } else {
      assert next - 131072 == 1024 * (q + 1);
      RestOfBlocks(2, q + 1);
    }
  }

  /** Where the k-th page starts, counting across zones. */
  function StartOf(k: nat): nat
  {
    if k == 0 then 0 else StartOf(k - 1) + BlockSizeFor(StartOf(k - 1))
  }

  lemma {:induction false} StartsAreAligned(k: nat)
    ensures PageStartFor(StartOf(k)) == StartOf(k)
  {
    if k > 0 {
      StartsAreAligned(k - 1);
      NextPageStarts(StartOf(k - 1));
    }
  }

  lemma PageIdMonotone(p: nat, q: nat, maxSeqLen: nat)
    requires p <= q
    ensures PageId(p, maxSeqLen) <= PageId(q, maxSeqLen)
  {
    ZoneOffsetsAre(maxSeqLen);
  }

  // ----- flat ranges, zone by zone -----

  /** Local id, in zone z, of the first flat id that is at least `start` and not before the zone. */
  function FirstIn(z: nat, start: nat): nat
    requires z < 3
  {
    var offset := [0, 128, 1120][z];
    if start > offset then start - offset else 0
  }

  /** How many of the flat ids start..upto-1 lie in zone z. */
  function CountIn(z: nat, start: nat, upto: nat): nat
    requires z < 3
  {
    var from := [0, 128, 1120][z];
    var lo := if start > from then start else from;
    var hi := if z == 0 && upto > 128 then 128 else if z == 1 && upto > 1120 then 1120 else upto;
    if hi > lo then hi - lo else 0
  }

  /** Walking a flat range walks each zone's part of it in order. */
  lemma CountStep(start: nat, flat: nat, maxSeqLen: nat)
    requires start <= flat
    ensures
      var (zi, p) := ResolveFlat(flat, maxSeqLen);
      && p == FirstIn(zi, start) + CountIn(zi, start, flat)
      && forall z :: 0 <= z < 3 ==>
           CountIn(z, start, flat + 1) == CountIn(z, start, flat) + if z == zi then 1 else 0
  {
    ResolveFlatIs(flat, maxSeqLen);
  }

  lemma CountMonotone(z: nat, start: nat, upto: nat, more: nat)
    requires z < 3 && upto <= more
    ensures CountIn(z, start, upto) <= CountIn(z, start, more)
  {
  }

  /** The zones' parts of a flat range cover it. */
  lemma RangeCovered(start: nat, upto: nat, flat: nat, maxSeqLen: nat)
    requires start <= flat < upto
    ensures
      var (zi, p) := ResolveFlat(flat, maxSeqLen);
      FirstIn(zi, start) <= p < FirstIn(zi, start) + CountIn(zi, start, upto)
  {
    ResolveFlatIs(flat, maxSeqLen);
  }
}
