// Whole pages of quantised blocks: addressing, saving a position's vectors, dequantising.
module KvPages {
  import opened Common
  import opened KvQuant
  import opened KvBlocks
  import opened MixedRadix

  // ----- addressing -----

  datatype Dims = Dims(layers: nat, heads: nat, slots: nat, headDim: nat) {
    /** As many blocks of 32 as a head's vector takes, the last of them perhaps short. */
    function BlocksPerHead(): (n: nat)
      ensures 32 * n - 32 < headDim <= 32 * n || headDim == n == 0
    {
      (headDim + 31) / 32
    }

    predicate Has(layer: nat, head: nat, slot: nat, blk: nat)
    {
      layer < layers && head < heads && slot < slots && blk < BlocksPerHead()
    }

    function Index(layer: nat, head: nat, slot: nat, blk: nat): nat
    {
      Radix(Radix(Radix(layer, heads, head), slots, slot), BlocksPerHead(), blk)
    }

    /** Blocks in a page. */
    function Count(): nat
    {
      Radix(Radix(Radix(layers, heads, 0), slots, 0), BlocksPerHead(), 0)
    }
  }

  /** The byte offset the cache computes is 20 times the block's index. */
  lemma BlockOffset(dims: Dims, layer: nat, head: nat, slot: nat, blk: nat)
    ensures
      var q4bph := dims.BlocksPerHead() * 20;
      (layer * dims.heads + head) * dims.slots * q4bph + slot * q4bph + blk * 20 ==
          20 * dims.Index(layer, head, slot, blk)
  {
    var n := dims.BlocksPerHead();
    var row := layer * dims.heads + head;
    RadixIs(layer, dims.heads, head);
    RadixIs(row, dims.slots, slot);
    RadixIs(row * dims.slots + slot, n, blk);
    Distribute(row * dims.slots, slot, n);
    assert row * dims.slots * (n * 20) == 20 * (row * dims.slots * n) by { Times20(row * dims.slots, n); }
    assert slot * (n * 20) == 20 * (slot * n) by { Times20(slot, n); }
  }

  lemma Times20(a: nat, n: nat)
    ensures a * (n * 20) == 20 * (a * n)
  {
  }

  /** Different blocks have different indices, all within the page. */
  lemma IndexInjective(dims: Dims, l: nat, h: nat, s: nat, b: nat, l': nat, h': nat, s': nat, b': nat)
    requires dims.Has(l, h, s, b) && dims.Has(l', h', s', b')
    requires dims.Index(l, h, s, b) == dims.Index(l', h', s', b')
    ensures l == l' && h == h' && s == s' && b == b'
  {
    RadixInjective(Radix(Radix(l, dims.heads, h), dims.slots, s), dims.BlocksPerHead(), b,
                   Radix(Radix(l', dims.heads, h'), dims.slots, s'), b');
    RadixInjective(Radix(l, dims.heads, h), dims.slots, s, Radix(l', dims.heads, h'), s');
    RadixInjective(l, dims.heads, h, l', h');
  }

  lemma IndexInPage(dims: Dims, l: nat, h: nat, s: nat, b: nat)
    requires dims.Has(l, h, s, b)
    ensures dims.Index(l, h, s, b) < dims.Count()
  {
    RadixBelow(l, dims.heads, h, dims.layers);
    RadixBelow(Radix(l, dims.heads, h), dims.slots, s, Radix(dims.layers, dims.heads, 0));
    RadixBelow(Radix(Radix(l, dims.heads, h), dims.slots, s), dims.BlocksPerHead(), b,
               Radix(Radix(dims.layers, dims.heads, 0), dims.slots, 0));
  }

  // ----- saving -----

  function NibbleArea(page: seq<Byte>, base: nat): (r: seq<Byte>)
    requires base + 20 <= |page|
    ensures |r| == 16
  {
    page[base + 4..base + 20]
  }

  function BlockAt(page: seq<Byte>, base: nat): (r: Block)
    requires base + 20 <= |page|
    ensures |r.nibbles| == 16
  {
    Block((page[base], page[base + 1]), (page[base + 2], page[base + 3]), NibbleArea(page, base))
  }

  /** Largest magnitude and least element, in one pass: bounds that elements attain. */
  method Extremes(src: seq<F32>) returns (mx: real, mn: real)
    ensures mx == MaxAbs(src) && mn == Least(src)
    ensures forall i :: 0 <= i < |src| ==> Abs(src[i]) <= mx && mn <= src[i]
    ensures src != [] ==> mn in src && exists i :: 0 <= i < |src| && Abs(src[i]) == mx
  {
    mx, mn := 0.0, F32_MAX;
    for i := 0 to |src|
      invariant mx == MaxAbs(src[..i]) && mn == Least(src[..i])
    {
      assert src[..i + 1][..i] == src[..i];
      mx := if Abs(src[i]) > mx then Abs(src[i]) else mx;
      mn := if src[i] < mn then src[i] else mn;
    }
    assert src[..|src|] == src;
    forall i | 0 <= i < |src|
      ensures Abs(src[i]) <= mx && mn <= src[i]
    {
      MaxAbsBounds(src, i);
      LeastBounds(src, i);
    }
    if src != [] {
      MaxAbsAttained(src);
      LeastAttained(src);
    }
  }

  /** Or a block's levels into its nibbles, one by one. */
  method OrNibbles(page: array<Byte>, base: nat, src: seq<F32>, d: real, dmin: real)
    requires base + 20 <= page.Length && |src| <= 32 && d == Scale(src) && dmin == Least(src)
    modifies page
    ensures NibbleArea(page[..], base) == NibblesUpto(NibbleArea(old(page[..]), base), Levels(src), |src|)
    ensures forall j :: 0 <= j < page.Length && !(base + 4 <= j < base + 20) ==> page[j] == old(page[j])
  {
    ghost var area := NibbleArea(page[..], base);
    for i := 0 to |src|
      invariant NibbleArea(page[..], base) == NibblesUpto(area, Levels(src), i)
      invariant forall j :: 0 <= j < page.Length && !(base + 4 <= j < base + 20) ==> page[j] == old(page[j])
    {
      var q := Quant(src[i], d, dmin);
      ghost var was := page[..];
      page[base + 4 + i / 2] := WithNibble(page[base + 4 + i / 2], i, q);
      AreaWritten(was, page[..], base, i / 2);
    }
  }

  /** One byte of a nibble area is written. */
  lemma AreaWritten(was: seq<Byte>, now: seq<Byte>, base: nat, k: nat)
    requires base + 20 <= |was| == |now| && k < 16
    requires now == was[base + 4 + k := now[base + 4 + k]]
    ensures NibbleArea(now, base) == NibbleArea(was, base)[k := now[base + 4 + k]]
    ensures NibbleArea(was, base)[k] == was[base + 4 + k]
  {
  }

  /** Write one block: its header, then its nibbles; no other byte changes. */
  method QuantizeBlock(page: array<Byte>, base: nat, src: seq<F32>, half: Half)
    requires base + 20 <= page.Length && |src| <= 32
    modifies page
    ensures BlockAt(page[..], base) == Quantised(NibbleArea(old(page[..]), base), src, half)
    ensures forall j :: 0 <= j < page.Length && !(base <= j < base + 20) ==> page[j] == old(page[j])
  {
    var mx, dmin := Extremes(src);
    var d := if mx > TINY then mx / 7.0 else 0.0;
    page[base], page[base + 1] := half.encode(d).0, half.encode(d).1;
    page[base + 2], page[base + 3] := half.encode(dmin).0, half.encode(dmin).1;
    assert NibbleArea(page[..], base) == NibbleArea(old(page[..]), base);
    OrNibbles(page, base, src, d, dmin);
  }

  /** The part of a head's vector that a block holds; the last block may be short. */
  function Part(dims: Dims, src: seq<F32>, head: nat, blk: nat): (r: seq<F32>)
    requires |src| == Radix(dims.heads, dims.headDim, 0) && head < dims.heads && blk < dims.BlocksPerHead()
    ensures |r| == Min(32, dims.headDim - blk * 32)
  {
    RadixBelow(head, dims.headDim, dims.headDim - 1, dims.heads);
    RadixShift(head, dims.headDim, dims.headDim - 1);
    var from := Radix(head, dims.headDim, 0) + blk * 32;
    src[from..from + Min(32, dims.headDim - blk * 32)]
  }

  /** Element e of a head's vector. */
  function Element(dims: Dims, src: seq<F32>, head: nat, e: nat): F32
    requires |src| == Radix(dims.heads, dims.headDim, 0) && head < dims.heads && e < dims.headDim
  {
    RadixBelow(head, dims.headDim, e, dims.heads);
    src[Radix(head, dims.headDim, e)]
  }

  lemma ElementAt(dims: Dims, src: seq<F32>, head: nat, e: nat)
    requires |src| == Radix(dims.heads, dims.headDim, 0) && head < dims.heads && e < dims.headDim
    ensures head * dims.headDim + e < |src| == dims.heads * dims.headDim
    ensures Element(dims, src, head, e) == src[head * dims.headDim + e]
  {
    RadixIs(head, dims.headDim, e);
    RadixIs(dims.heads, dims.headDim, 0);
    RadixBelow(head, dims.headDim, e, dims.heads);
  }

  /** It is element e % 32 of part e / 32. */
  lemma PartIs(dims: Dims, src: seq<F32>, head: nat, e: nat)
    requires |src| == Radix(dims.heads, dims.headDim, 0) && head < dims.heads && e < dims.headDim
    ensures e % 32 < |Part(dims, src, head, e / 32)|
    ensures Part(dims, src, head, e / 32)[e % 32] == Element(dims, src, head, e)
  {
    RadixBelow(head, dims.headDim, dims.headDim - 1, dims.heads);
    RadixShift(head, dims.headDim, dims.headDim - 1);
    RadixShift(head, dims.headDim, e);
    assert e / 32 * 32 + e % 32 == e;
  }

  predicate PageOf(dims: Dims, page: seq<Byte>)
  {
    |page| == 20 * dims.Count()
  }

  function BlockOf(dims: Dims, page: seq<Byte>, l: nat, h: nat, s: nat, b: nat): (r: Block)
    requires PageOf(dims, page) && dims.Has(l, h, s, b)
    ensures |r.nibbles| == 16
  {
    IndexInPage(dims, l, h, s, b);
    BlockAt(page, 20 * dims.Index(l, h, s, b))
  }

  /** The first n blocks of layer and slot, head by head, are quantised from src over what they
      were, and every other block of the page is as it was. */
  ghost predicate SavedUpto(dims: Dims, was: seq<Byte>, now: seq<Byte>, layer: nat, slot: nat, src: seq<F32>,
                            half: Half, head: nat, blk: nat)
    requires PageOf(dims, was) && PageOf(dims, now) && |src| == Radix(dims.heads, dims.headDim, 0)
  {
    forall l: nat, h: nat, s: nat, b: nat {:trigger dims.Has(l, h, s, b)} :: dims.Has(l, h, s, b) ==>
      BlockOf(dims, now, l, h, s, b) ==
        if l == layer && s == slot && (h < head || (h == head && b < blk))
        then Quantised(BlockOf(dims, was, l, h, s, b).nibbles, Part(dims, src, h, b), half)
        else BlockOf(dims, was, l, h, s, b)
  }

  /** One more block saved. */
  lemma SavedNext(dims: Dims, was: seq<Byte>, mid: seq<Byte>, now: seq<Byte>, layer: nat, slot: nat, src: seq<F32>,
                  half: Half, head: nat, blk: nat)
    requires PageOf(dims, was) && PageOf(dims, mid) && PageOf(dims, now) && |src| == Radix(dims.heads, dims.headDim, 0)
    requires dims.Has(layer, head, slot, blk) && SavedUpto(dims, was, mid, layer, slot, src, half, head, blk)
    requires BlockOf(dims, now, layer, head, slot, blk)
          == Quantised(BlockOf(dims, mid, layer, head, slot, blk).nibbles, Part(dims, src, head, blk), half)
    requires forall j {:trigger now[j]} :: 0 <= j < |now| && j / 20 != dims.Index(layer, head, slot, blk) ==>
        now[j] == mid[j]
    ensures SavedUpto(dims, was, now, layer, slot, src, half, head, blk + 1)
  {
    forall l: nat, h: nat, s: nat, b: nat {:trigger dims.Has(l, h, s, b)} | dims.Has(l, h, s, b)
      ensures BlockOf(dims, now, l, h, s, b) ==
        if l == layer && s == slot && (h < head || (h == head && b < blk + 1))
        then Quantised(BlockOf(dims, was, l, h, s, b).nibbles, Part(dims, src, h, b), half)
        else BlockOf(dims, was, l, h, s, b)
    {
      if l == layer && h == head && s == slot && b == blk {
      } else {
        if dims.Index(l, h, s, b) == dims.Index(layer, head, slot, blk) {
          IndexInjective(dims, l, h, s, b, layer, head, slot, blk);
        }
        IndexInPage(dims, l, h, s, b);
        BlockElsewhere(mid, now, dims.Index(l, h, s, b), dims.Index(layer, head, slot, blk));
      }
    }
  }

  lemma BlockElsewhere(mid: seq<Byte>, now: seq<Byte>, i: nat, changed: nat)
    requires |mid| == |now| && 20 * i + 20 <= |now| && i != changed
    requires forall j {:trigger now[j]} :: 0 <= j < |now| && j / 20 != changed ==> now[j] == mid[j]
    ensures BlockAt(now, 20 * i) == BlockAt(mid, 20 * i)
  {
    assert NibbleArea(now, 20 * i) == NibbleArea(mid, 20 * i);
  }

  lemma SavedNextHead(dims: Dims, was: seq<Byte>, now: seq<Byte>, layer: nat, slot: nat, src: seq<F32>, half: Half,
                      head: nat)
    requires PageOf(dims, was) && PageOf(dims, now) && |src| == Radix(dims.heads, dims.headDim, 0)
    requires SavedUpto(dims, was, now, layer, slot, src, half, head, dims.BlocksPerHead())
    ensures SavedUpto(dims, was, now, layer, slot, src, half, head + 1, 0)
  {
  }

  /** A page with other bytes for its i-th block. */
  function WithBlock(page: seq<Byte>, i: nat, block: Block): (now: seq<Byte>)
    requires 20 * i + 20 <= |page| && |block.nibbles| == 16
    ensures |now| == |page|
  {
    page[..20 * i] + [block.d.0, block.d.1, block.dmin.0, block.dmin.1] + block.nibbles + page[20 * i + 20..]
  }

  lemma WithBlockIs(page: seq<Byte>, i: nat, block: Block)
    requires 20 * i + 20 <= |page| && |block.nibbles| == 16
    ensures BlockAt(WithBlock(page, i, block), 20 * i) == block
    ensures forall j {:trigger WithBlock(page, i, block)[j]} ::
              0 <= j < |page| && j / 20 != i ==> WithBlock(page, i, block)[j] == page[j]
  {
    var now := WithBlock(page, i, block);
    assert NibbleArea(now, 20 * i) == block.nibbles;
    forall j {:trigger now[j]} | 0 <= j < |page| && j / 20 != i
      ensures now[j] == page[j]
    {
      assert j < 20 * i || j >= 20 * i + 20;
    }
  }

  lemma SavedOneMore(dims: Dims, was: seq<Byte>, mid: seq<Byte>, layer: nat, slot: nat, src: seq<F32>, half: Half,
                     head: nat, blk: nat) returns (now: seq<Byte>)
    requires PageOf(dims, was) && PageOf(dims, mid) && |src| == Radix(dims.heads, dims.headDim, 0)
    requires dims.Has(layer, head, slot, blk) && SavedUpto(dims, was, mid, layer, slot, src, half, head, blk)
    ensures PageOf(dims, now) && SavedUpto(dims, was, now, layer, slot, src, half, head, blk + 1)
  {
    var i := dims.Index(layer, head, slot, blk);
    IndexInPage(dims, layer, head, slot, blk);
    var block := Quantised(BlockOf(dims, mid, layer, head, slot, blk).nibbles, Part(dims, src, head, blk), half);
    now := WithBlock(mid, i, block);
    WithBlockIs(mid, i, block);
    SavedNext(dims, was, mid, now, layer, slot, src, half, head, blk);
  }

  /** Every save has an outcome. */
  lemma SaveExists(dims: Dims, was: seq<Byte>, layer: nat, slot: nat, src: seq<F32>,
                   half: Half) returns (now: seq<Byte>)
    requires PageOf(dims, was) && layer < dims.layers && slot < dims.slots &&
        |src| == Radix(dims.heads, dims.headDim, 0)
    ensures PageOf(dims, now) && SavedUpto(dims, was, now, layer, slot, src, half, dims.heads, 0)
  {
    now := was;
    for head := 0 to dims.heads
      invariant PageOf(dims, now) && SavedUpto(dims, was, now, layer, slot, src, half, head, 0)
    {
      for blk := 0 to dims.BlocksPerHead()
        invariant PageOf(dims, now) && SavedUpto(dims, was, now, layer, slot, src, half, head, blk)
      {
        now := SavedOneMore(dims, was, now, layer, slot, src, half, head, blk);
      }
      SavedNextHead(dims, was, now, layer, slot, src, half, head);
    }
  }

  /** One block of a position's vectors. */
  method SaveBlock(dims: Dims, page: array<Byte>, layer: nat, slot: nat, src: seq<F32>, half: Half, head: nat,
                   blk: nat, ghost was: seq<Byte>)
    requires PageOf(dims, page[..]) && PageOf(dims, was) && dims.Has(layer, head, slot, blk)
    requires |src| == Radix(dims.heads, dims.headDim, 0)
    requires SavedUpto(dims, was, page[..], layer, slot, src, half, head, blk)
    modifies page
    ensures SavedUpto(dims, was, page[..], layer, slot, src, half, head, blk + 1)
  {
    IndexInPage(dims, layer, head, slot, blk);
    ghost var mid := page[..];
    QuantizeBlock(page, 20 * dims.Index(layer, head, slot, blk), Part(dims, src, head, blk), half);
    SavedNext(dims, was, mid, page[..], layer, slot, src, half, head, blk);
  }

  /** `save` and `save_at`, for the key page or the value page: the position's blocks at one
      layer are quantised over what its slot held; no other block of the page changes. */
  method SaveAt(dims: Dims, page: array<Byte>, layer: nat, slot: nat, src: seq<F32>, half: Half)
    requires PageOf(dims, page[..]) && layer < dims.layers && slot < dims.slots
    requires |src| == Radix(dims.heads, dims.headDim, 0)
    modifies page
    ensures SavedUpto(dims, old(page[..]), page[..], layer, slot, src, half, dims.heads, 0)
  {
    ghost var was := page[..];
    for head := 0 to dims.heads
      invariant SavedUpto(dims, was, page[..], layer, slot, src, half, head, 0)
    {
      for blk := 0 to dims.BlocksPerHead()
        invariant SavedUpto(dims, was, page[..], layer, slot, src, half, head, blk)
      {
        SaveBlock(dims, page, layer, slot, src, half, head, blk, was);
      }
      SavedNextHead(dims, was, page[..], layer, slot, src, half, head);
    }
  }

  // ----- reading back -----

  /** Element e of a cached vector, as `ensure_f32_page` dequantises it. */
  function ReadBack(dims: Dims, page: seq<Byte>, half: Half, l: nat, h: nat, s: nat, e: nat): real
    requires PageOf(dims, page) && l < dims.layers && h < dims.heads && s < dims.slots && e < dims.headDim
  {
    Dequantised(BlockOf(dims, page, l, h, s, e / 32), half, e % 32)
  }

  /** The loop over one block, cut off where the head's vector ends. */
  method DequantBlock(page: array<Byte>, base: nat, f32: array<real>, at: nat, headDim: nat, blk: nat, half: Half)
    requires base + 20 <= page.Length && blk * 32 < headDim && at + headDim <= f32.Length
    modifies f32
    ensures forall k :: 0 <= k < 32 && blk * 32 + k < headDim ==>
        f32[at + blk * 32 + k] == Dequantised(BlockAt(page[..], base), half, k)
    ensures forall j :: 0 <= j < f32.Length && !(at + blk * 32 <= j < at + blk * 32 + 32 && j < at + headDim) ==>
        f32[j] == old(f32[j])
  {
    ghost var block := BlockAt(page[..], base);
    var d, dmin := half.decode(page[base], page[base + 1]), half.decode(page[base + 2], page[base + 3]);
    var i := 0;
    while i < 32 && blk * 32 + i < headDim
      invariant i <= 32 && blk * 32 + i <= headDim
      invariant forall k :: 0 <= k < i ==> f32[at + blk * 32 + k] == Dequantised(block, half, k)
      invariant forall j :: 0 <= j < f32.Length && !(at + blk * 32 <= j < at + blk * 32 + i) ==> f32[j] == old(f32[j])
    {
      var nib := Nibble(page[base + 4 + i / 2], i);
      assert nib == NibbleAt(block.nibbles, i);
      StepsIs(d, nib);
      f32[at + blk * 32 + i] := d * nib as real + dmin;
      i := i + 1;
    }
  }

  /** One vector's place among all of a page's, layer by layer and head by head. */
  function Row(dims: Dims, l: nat, h: nat, s: nat): nat
  {
    Radix(Radix(l, dims.heads, h), dims.slots, s)
  }

  /** The offset of element e in the FP32 page, as the cache computes it. */
  lemma F32Offset(dims: Dims, l: nat, h: nat, s: nat, e: nat)
    ensures ((l * dims.heads + h) * dims.slots + s) * dims.headDim + e == Radix(Row(dims, l, h, s), dims.headDim, e)
  {
    RadixIs(l, dims.heads, h);
    RadixIs(Radix(l, dims.heads, h), dims.slots, s);
    RadixIs(Row(dims, l, h, s), dims.headDim, e);
  }

  predicate F32PageOf(dims: Dims, length: nat)
  {
    length == Radix(Row(dims, dims.layers, 0, 0), dims.headDim, 0)
  }

  /** Every vector lies within the FP32 page. */
  lemma RowInPage(dims: Dims, l: nat, h: nat, s: nat)
    requires l < dims.layers && h < dims.heads && s < dims.slots
    ensures Row(dims, l, h, s) < Row(dims, dims.layers, 0, 0)
    ensures Radix(Row(dims, l, h, s), dims.headDim, 0) + dims.headDim <=
        Radix(Row(dims, dims.layers, 0, 0), dims.headDim, 0)
  {
    RadixBelow(l, dims.heads, h, dims.layers);
    RadixBelow(Radix(l, dims.heads, h), dims.slots, s, Radix(dims.layers, dims.heads, 0));
    RadixNext(Row(dims, l, h, s), dims.headDim, Row(dims, dims.layers, 0, 0));
  }

  /** Vector by vector, the first n rows of the FP32 page are what the page's blocks read back as. */
  ghost predicate Dequantised32(dims: Dims, page: seq<Byte>, f32: seq<real>, half: Half, n: nat)
    requires PageOf(dims, page)
  {
    forall l: nat, h: nat, s: nat {:trigger Row(dims, l, h, s)} ::
      l < dims.layers && h < dims.heads && s < dims.slots && Row(dims, l, h, s) < n ==>
        RowDequantised(dims, page, f32, half, l, h, s, dims.headDim)
  }

  ghost predicate AllDequantised(dims: Dims, page: seq<Byte>, f32: seq<real>, half: Half)
    requires PageOf(dims, page)
  {
    forall l: nat, h: nat, s: nat ::
      l < dims.layers && h < dims.heads && s < dims.slots ==>
          RowDequantised(dims, page, f32, half, l, h, s, dims.headDim)
  }

  /** The first m elements of one vector. */
  ghost predicate RowDequantised(dims: Dims, page: seq<Byte>, f32: seq<real>, half: Half, l: nat, h: nat, s: nat,
                                 m: nat)
    requires PageOf(dims, page) && l < dims.layers && h < dims.heads && s < dims.slots && m <= dims.headDim
  {
    var at := Radix(Row(dims, l, h, s), dims.headDim, 0);
    at + m <= |f32| && forall e :: 0 <= e < m ==> f32[at + e] == ReadBack(dims, page, half, l, h, s, e)
  }

  /** The loop over a vector's blocks. */
  method DequantRow(dims: Dims, page: array<Byte>, f32: array<real>, half: Half, l: nat, h: nat, s: nat)
    requires PageOf(dims, page[..]) && F32PageOf(dims, f32.Length)
    requires l < dims.layers && h < dims.heads && s < dims.slots
    modifies f32
    ensures RowDequantised(dims, page[..], f32[..], half, l, h, s, dims.headDim)
    ensures
      var at := Radix(Row(dims, l, h, s), dims.headDim, 0);
      forall j :: 0 <= j < f32.Length && !(at <= j < at + dims.headDim) ==> f32[j] == old(f32[j])
  {
    RowInPage(dims, l, h, s);
    var at := Radix(Row(dims, l, h, s), dims.headDim, 0);
    for blk := 0 to dims.BlocksPerHead()
      invariant RowDequantised(dims, page[..], f32[..], half, l, h, s, Min(blk * 32, dims.headDim))
      invariant forall j :: 0 <= j < f32.Length && !(at <= j < at + dims.headDim) ==> f32[j] == old(f32[j])
    {
      assert dims.Has(l, h, s, blk);
      IndexInPage(dims, l, h, s, blk);
      ghost var was := f32[..];
      DequantBlock(page, 20 * dims.Index(l, h, s, blk), f32, at, dims.headDim, blk, half);
      RowMore(dims, page[..], was, f32[..], half, l, h, s, blk);
    }
  }

  /** One more block of a vector. */
  lemma RowMore(dims: Dims, page: seq<Byte>, was: seq<real>, now: seq<real>, half: Half, l: nat, h: nat, s: nat,
                blk: nat)
    requires PageOf(dims, page) && l < dims.layers && h < dims.heads && s < dims.slots && blk < dims.BlocksPerHead()
    requires RowDequantised(dims, page, was, half, l, h, s, Min(blk * 32, dims.headDim)) && |now| == |was|
    requires
      var at := Radix(Row(dims, l, h, s), dims.headDim, 0);
      && at + dims.headDim <= |was| && dims.Has(l, h, s, blk)
      && (forall j :: at <= j < at + blk * 32 ==> now[j] == was[j])
      && forall k :: 0 <= k < 32 && blk * 32 + k < dims.headDim ==>
           now[at + blk * 32 + k] == Dequantised(BlockOf(dims, page, l, h, s, blk), half, k)
    ensures RowDequantised(dims, page, now, half, l, h, s, Min((blk + 1) * 32, dims.headDim))
  {
    var at := Radix(Row(dims, l, h, s), dims.headDim, 0);
    forall e | 0 <= e < Min((blk + 1) * 32, dims.headDim)
      ensures now[at + e] == ReadBack(dims, page, half, l, h, s, e)
    {
      if e >= blk * 32 {
        assert e / 32 == blk && now[at + blk * 32 + (e - blk * 32)] == now[at + e];
      } else {
        assert now[at + e] == was[at + e];
      }
    }
  }

  /** One more row done, and the rows before it left as they were. */
  lemma DequantisedNext(dims: Dims, page: seq<Byte>, was: seq<real>, now: seq<real>, half: Half, l: nat, h: nat, s: nat)
    requires PageOf(dims, page) && l < dims.layers && h < dims.heads && s < dims.slots && |now| == |was|
    requires Dequantised32(dims, page, was, half, Row(dims, l, h, s))
    requires RowDequantised(dims, page, now, half, l, h, s, dims.headDim)
    requires
      var at := Radix(Row(dims, l, h, s), dims.headDim, 0);
      forall j :: 0 <= j < |now| && !(at <= j < at + dims.headDim) ==> now[j] == was[j]
    ensures Dequantised32(dims, page, now, half, Row(dims, l, h, s) + 1)
  {
    forall l': nat, h': nat, s': nat {:trigger Row(dims, l', h', s')} |
      l' < dims.layers && h' < dims.heads && s' < dims.slots && Row(dims, l', h', s') < Row(dims, l, h, s) + 1
      ensures RowDequantised(dims, page, now, half, l', h', s', dims.headDim)
    {
      if Row(dims, l', h', s') == Row(dims, l, h, s) {
        RowInjective(dims, l, h, s, l', h', s');
      } else {
        RadixNext(Row(dims, l', h', s'), dims.headDim, Row(dims, l, h, s));
      }
    }
  }

  lemma RowInjective(dims: Dims, l: nat, h: nat, s: nat, l': nat, h': nat, s': nat)
    requires h < dims.heads && h' < dims.heads && s < dims.slots && s' < dims.slots
    requires Row(dims, l, h, s) == Row(dims, l', h', s')
    ensures l == l' && h == h' && s == s'
  {
    RadixInjective(Radix(l, dims.heads, h), dims.slots, s, Radix(l', dims.heads, h'), s');
    RadixInjective(l, dims.heads, h, l', h');
  }

  /** One turn of the nest: the next vector. */
  method DequantSlot(dims: Dims, page: array<Byte>, f32: array<real>, half: Half, l: nat, h: nat, s: nat)
    requires PageOf(dims, page[..]) && F32PageOf(dims, f32.Length)
    requires l < dims.layers && h < dims.heads && s < dims.slots
    requires Dequantised32(dims, page[..], f32[..], half, Row(dims, l, h, s))
    modifies f32
    ensures Dequantised32(dims, page[..], f32[..], half, Row(dims, l, h, s + 1))
  {
    ghost var was := f32[..];
    DequantRow(dims, page, f32, half, l, h, s);
    DequantisedNext(dims, page[..], was, f32[..], half, l, h, s);
    RadixShift(Radix(l, dims.heads, h), dims.slots, s);
    RadixShift(Radix(l, dims.heads, h), dims.slots, s + 1);
  }

  /** The loop over a head's slots. */
  method DequantHead(dims: Dims, page: array<Byte>, f32: array<real>, half: Half, l: nat, h: nat)
    requires PageOf(dims, page[..]) && F32PageOf(dims, f32.Length) && l < dims.layers && h < dims.heads
    requires Dequantised32(dims, page[..], f32[..], half, Row(dims, l, h, 0))
    modifies f32
    ensures Dequantised32(dims, page[..], f32[..], half, Row(dims, l, h + 1, 0))
  {
    for s := 0 to dims.slots
      invariant Dequantised32(dims, page[..], f32[..], half, Row(dims, l, h, s))
    {
      DequantSlot(dims, page, f32, half, l, h, s);
    }
    RadixCarry(Radix(l, dims.heads, h), dims.slots);
    RadixShift(l, dims.heads, h);
    RadixShift(l, dims.heads, h + 1);
  }

  /** `ensure_f32_page`, for the key or the value copy: every element of the new FP32 page is what
      its block reads back as. */
  method DequantPage(dims: Dims, page: array<Byte>, f32: array<real>, half: Half)
    requires PageOf(dims, page[..]) && F32PageOf(dims, f32.Length)
    modifies f32
    ensures AllDequantised(dims, page[..], f32[..], half)
  {
    for l := 0 to dims.layers
      invariant Dequantised32(dims, page[..], f32[..], half, Row(dims, l, 0, 0))
    {
      for h := 0 to dims.heads
        invariant Dequantised32(dims, page[..], f32[..], half, Row(dims, l, h, 0))
      {
        DequantHead(dims, page, f32, half, l, h);
      }
      RadixCarry(l, dims.heads);
    }
    AllRows(dims, page[..], f32[..], half);
  }

  lemma AllRows(dims: Dims, page: seq<Byte>, f32: seq<real>, half: Half)
    requires PageOf(dims, page) && Dequantised32(dims, page, f32, half, Row(dims, dims.layers, 0, 0))
    ensures AllDequantised(dims, page, f32, half)
  {
    forall l: nat, h: nat, s: nat | l < dims.layers && h < dims.heads && s < dims.slots
      ensures RowDequantised(dims, page, f32, half, l, h, s, dims.headDim)
    {
      RowInPage(dims, l, h, s);
    }
  }

  /** Round trip through a page: an element saved into a fresh slot reads back within its own
      block's bound and what f16 loses of the block's header. */
  lemma SavedReadsBack(dims: Dims, was: seq<Byte>, now: seq<Byte>, layer: nat, slot: nat, src: seq<F32>, half: Half,
                       h: nat, e: nat)
    requires PageOf(dims, was) && PageOf(dims, now) && layer < dims.layers && slot < dims.slots
    requires |src| == Radix(dims.heads, dims.headDim, 0) && h < dims.heads && e < dims.headDim
    requires SavedUpto(dims, was, now, layer, slot, src, half, dims.heads, 0)
    requires Fresh(BlockOf(dims, was, layer, h, slot, e / 32).nibbles, |Part(dims, src, h, e / 32)|)
    ensures Within(half, dims, src, h, e, ReadBack(dims, now, half, layer, h, slot, e))
  {
    assert dims.Has(layer, h, slot, e / 32);
    PartIs(dims, src, h, e);
    SaveThenRead(BlockOf(dims, was, layer, h, slot, e / 32).nibbles, Part(dims, src, h, e / 32), half, e % 32);
  }

  /** A number read back for element e of a head is as close to it as its block allows. */
  ghost predicate Within(half: Half, dims: Dims, src: seq<F32>, h: nat, e: nat, x: real)
    requires |src| == Radix(dims.heads, dims.headDim, 0) && h < dims.heads && e < dims.headDim
  {
    WithinBlock(half, Part(dims, src, h, e / 32), Abs(x - Element(dims, src, h, e)))
  }

  /** What is cached for any other layer, head or slot reads back as before. */
  lemma OthersReadBack(dims: Dims, was: seq<Byte>, now: seq<Byte>, layer: nat, slot: nat, src: seq<F32>, half: Half,
                       l: nat, h: nat, s: nat, e: nat)
    requires PageOf(dims, was) && PageOf(dims, now)
    requires |src| == Radix(dims.heads, dims.headDim, 0)
    requires SavedUpto(dims, was, now, layer, slot, src, half, dims.heads, 0)
    requires l < dims.layers && h < dims.heads && s < dims.slots && e < dims.headDim && (l != layer || s != slot)
    ensures ReadBack(dims, now, half, l, h, s, e) == ReadBack(dims, was, half, l, h, s, e)
  {
    assert dims.Has(l, h, s, e / 32);
  }

  // ----- a whole run of saves -----

  datatype Save = Save(layer: nat, slot: nat, src: seq<F32>)

  /** Page states of a run: each save quantises its own blocks over what they held; other
      steps leave the page as it is. */
  ghost predicate IsSaveRun(dims: Dims, pages: seq<seq<Byte>>, saves: seq<Option<Save>>, half: Half)
  {
    && |pages| == |saves| + 1
    && (forall k :: 0 <= k < |pages| ==> PageOf(dims, pages[k]))
    && forall k :: 0 <= k < |saves| ==> Steps(dims, pages[k], saves[k], pages[k + 1], half)
  }

  ghost predicate Steps(dims: Dims, was: seq<Byte>, step: Option<Save>, now: seq<Byte>, half: Half)
  {
    if step.Some? then Saves(dims, was, step.value, now, half) else now == was
  }

  /** Steps from a page of the right size are a run. */
  lemma {:induction false} StepsKeepSize(dims: Dims, pages: seq<seq<Byte>>, saves: seq<Option<Save>>, half: Half)
    requires |pages| == |saves| + 1 && PageOf(dims, pages[0])
    requires forall k :: 0 <= k < |saves| ==> Steps(dims, pages[k], saves[k], pages[k + 1], half)
    ensures IsSaveRun(dims, pages, saves, half)
  {
    for k := 0 to |saves|
      invariant forall j :: 0 <= j <= k ==> PageOf(dims, pages[j])
    {
      assert Steps(dims, pages[k], saves[k], pages[k + 1], half);
    }
  }

  ghost predicate Saves(dims: Dims, was: seq<Byte>, s: Save, now: seq<Byte>, half: Half)
  {
    && PageOf(dims, was) && PageOf(dims, now)
    && s.layer < dims.layers && s.slot < dims.slots && |s.src| == Radix(dims.heads, dims.headDim, 0)
    && SavedUpto(dims, was, now, s.layer, s.slot, s.src, half, dims.heads, 0)
  }

  /** Step k saves to its layer and slot, and no other step does. */
  ghost predicate OnlySave(saves: seq<Option<Save>>, k: nat)
    requires k < |saves|
  {
    && saves[k].Some?
    && forall j :: 0 <= j < |saves| && j != k && saves[j].Some? ==>
         saves[j].value.layer != saves[k].value.layer || saves[j].value.slot != saves[k].value.slot
  }

  /** A block that no save from..to-1 is for stays as it was. */
  lemma {:induction false} BlockStays(dims: Dims, pages: seq<seq<Byte>>, saves: seq<Option<Save>>, half: Half,
                                      from: nat, to: nat, l: nat, h: nat, s: nat, b: nat)
    requires IsSaveRun(dims, pages, saves, half) && from <= to <= |saves| && dims.Has(l, h, s, b)
    requires forall j :: from <= j < to && saves[j].Some? ==> saves[j].value.layer != l || saves[j].value.slot != s
    ensures BlockOf(dims, pages[to], l, h, s, b) == BlockOf(dims, pages[from], l, h, s, b)
  {
    if from < to {
      BlockStays(dims, pages, saves, half, from, to - 1, l, h, s, b);
      assert Steps(dims, pages[to - 1], saves[to - 1], pages[to - 1 + 1], half);
    }
  }

  /** Over any run of saves onto a new page, every vector saved once reads back within its
      blocks' bounds at the end, whatever is saved before and after it. Where f16 holds a
      block's header exactly, only the quantisation is lost. */
  lemma EverySaveReadsBack(dims: Dims, pages: seq<seq<Byte>>, saves: seq<Option<Save>>, half: Half, k: nat, h: nat,
                           e: nat)
    requires IsSaveRun(dims, pages, saves, half) && k < |saves| && OnlySave(saves, k)
    requires forall i :: 0 <= i < |pages[0]| ==> pages[0][i] == 0
    requires h < dims.heads && e < dims.headDim
    ensures
      var s := saves[k].value;
      && PageOf(dims, pages[|saves|]) && s.layer < dims.layers && s.slot < dims.slots &&
          |s.src| == Radix(dims.heads, dims.headDim, 0)
      && Within(half, dims, s.src, h, e, ReadBack(dims, pages[|saves|], half, s.layer, h, s.slot, e))
  {
    var save := saves[k].value;
    var l, s, b := save.layer, save.slot, e / 32;
    assert Steps(dims, pages[k], saves[k], pages[k + 1], half);
    assert dims.Has(l, h, s, b);
    BlockStays(dims, pages, saves, half, 0, k, l, h, s, b);
    BlockStays(dims, pages, saves, half, k + 1, |saves|, l, h, s, b);
    ZeroIsFresh(dims, pages[0], l, h, s, b, |Part(dims, save.src, h, b)|);
    SavedReadsBack(dims, pages[k], pages[k + 1], l, s, save.src, half, h, e);
  }

  lemma ZeroIsFresh(dims: Dims, page: seq<Byte>, l: nat, h: nat, s: nat, b: nat, n: nat)
    requires PageOf(dims, page) && dims.Has(l, h, s, b) && n <= 32 && forall i :: 0 <= i < |page| ==> page[i] == 0
    ensures Fresh(BlockOf(dims, page, l, h, s, b).nibbles, n)
  {
    var base := 20 * dims.Index(l, h, s, b);
    IndexInPage(dims, l, h, s, b);
    forall i | 0 <= i < n
      ensures NibbleAt(NibbleArea(page, base), i) == 0
    {
      assert NibbleArea(page, base)[i / 2] == page[base + 4 + i / 2];
    }
  }
}
