// A page's quantised bytes and its dequantised FP32 copy, which readers use: which saves they see.
module KvCopies {
  import opened Common
  import opened KvQuant
  import opened KvBlocks
  import opened KvPages
  import opened MixedRadix

  /** The key or the value buffers of one page: its Q4 bytes, and its FP32 copy once that is made. */
  datatype Page = Page(q4: seq<Byte>, copy: Option<seq<real>>)

  predicate Has(dims: Dims, l: nat, h: nat, s: nat, e: nat)
  {
    l < dims.layers && h < dims.heads && s < dims.slots && e < dims.headDim
  }

  ghost predicate PageOk(dims: Dims, page: Page)
  {
    PageOf(dims, page.q4) && (page.copy.Some? ==> F32PageOf(dims, |page.copy.value|))
  }

  /** What happens to a page: a save, by `save`, which refreshes the copy, or `save_at`, which does
      not; its copy is made; its copy is dropped, by an eviction; or nothing. */
  datatype Act = Saved(save: Save, refresh: bool) | Filled | Dropped | Idle

  /** A vector's first row in the FP32 page. */
  function RowStart(dims: Dims, layer: nat, head: nat, slot: nat): nat
  {
    Radix(Row(dims, layer, head, slot), dims.headDim, 0)
  }

  /** The rows of a layer and slot get the vector itself, and no other element changes. */
  ghost predicate Refreshed(dims: Dims, was: seq<real>, save: Save, now: seq<real>)
  {
    && F32PageOf(dims, |was|) && |now| == |was|
    && save.layer < dims.layers && save.slot < dims.slots && |save.src| == Radix(dims.heads, dims.headDim, 0)
    && forall l: nat, h: nat, s: nat, e: nat :: Has(dims, l, h, s, e) ==>
         At(dims, now, l, h, s, e)
         == if l == save.layer && s == save.slot then Element(dims, save.src, h, e) else At(dims, was, l, h, s, e)
  }

  /** An element of an FP32 page. */
  function At(dims: Dims, f32: seq<real>, l: nat, h: nat, s: nat, e: nat): real
    requires F32PageOf(dims, |f32|) && Has(dims, l, h, s, e)
  {
    RowInPage(dims, l, h, s);
    f32[RowStart(dims, l, h, s) + e]
  }

  ghost predicate Acted(dims: Dims, half: Half, a: Page, act: Act, b: Page)
  {
    && PageOk(dims, a) && PageOk(dims, b)
    && match act
       case Saved(save, refresh) =>
         && Saves(dims, a.q4, save, b.q4, half)
         && if refresh && a.copy.Some? then b.copy.Some? && Refreshed(dims, a.copy.value, save, b.copy.value)
            else b.copy == a.copy
       case Filled =>
         && b.q4 == a.q4 && b.copy.Some?
         && if a.copy.Some? then b.copy == a.copy else AllDequantised(dims, a.q4, b.copy.value, half)
       case Dropped => b == a.(copy := None)
       case Idle => b == a
  }

  /** What a reader of the copy sees. */
  function Read(dims: Dims, page: Page, l: nat, h: nat, s: nat, e: nat): real
    requires page.copy.Some? && F32PageOf(dims, |page.copy.value|) && Has(dims, l, h, s, e)
  {
    At(dims, page.copy.value, l, h, s, e)
  }

  lemma FilledReads(dims: Dims, half: Half, a: Page, b: Page, l: nat, h: nat, s: nat, e: nat)
    requires Acted(dims, half, a, Filled, b) && a.copy.None? && Has(dims, l, h, s, e)
    ensures Read(dims, b, l, h, s, e) == ReadBack(dims, b.q4, half, l, h, s, e)
  {
    assert RowDequantised(dims, a.q4, b.copy.value, half, l, h, s, dims.headDim);
  }

  // ----- copies exist -----

  /** Index i of an FP32 page is this element's place. */
  predicate IsPlace(dims: Dims, l: nat, h: nat, s: nat, e: nat, i: nat)
  {
    Has(dims, l, h, s, e) && i == RowStart(dims, l, h, s) + e
  }

  /** The element at an index of an FP32 page, as its block reads back. */
  ghost function ElementAt(dims: Dims, q4: seq<Byte>, half: Half, i: nat): real
    requires PageOf(dims, q4)
  {
    if l: nat, h: nat, s: nat, e: nat :| IsPlace(dims, l, h, s, e, i) then ReadBack(dims, q4, half, l, h, s, e) else 0.0
  }

  lemma ElementAtIs(dims: Dims, q4: seq<Byte>, half: Half, l: nat, h: nat, s: nat, e: nat)
    requires PageOf(dims, q4) && Has(dims, l, h, s, e)
    ensures ElementAt(dims, q4, half, RowStart(dims, l, h, s) + e) == ReadBack(dims, q4, half, l, h, s, e)
  {
    var i := RowStart(dims, l, h, s) + e;
    assert IsPlace(dims, l, h, s, e, i);
    forall l': nat, h': nat, s': nat, e': nat | IsPlace(dims, l', h', s', e', i)
      ensures l' == l && h' == h && s' == s && e' == e
    {
      PlaceInjective(dims, l, h, s, e, l', h', s', e');
    }
  }

  /** Different elements have different places. */
  lemma PlaceInjective(dims: Dims, l: nat, h: nat, s: nat, e: nat, l': nat, h': nat, s': nat, e': nat)
    requires h < dims.heads && s < dims.slots && e < dims.headDim && h' < dims.heads && s' < dims.slots &&
        e' < dims.headDim
    requires RowStart(dims, l, h, s) + e == RowStart(dims, l', h', s') + e'
    ensures l' == l && h' == h && s' == s && e' == e
  {
    RadixShift(Row(dims, l, h, s), dims.headDim, e);
    RadixShift(Row(dims, l', h', s'), dims.headDim, e');
    RadixInjective(Row(dims, l, h, s), dims.headDim, e, Row(dims, l', h', s'), e');
    RowInjective(dims, l, h, s, l', h', s');
  }

  lemma CopyExists(dims: Dims, half: Half, a: Page) returns (b: Page)
    requires PageOk(dims, a)
    ensures Acted(dims, half, a, Filled, b)
  {
    if a.copy.Some? {
      b := a;
    } else {
      var n := Radix(Row(dims, dims.layers, 0, 0), dims.headDim, 0);
      var f32 := seq(n, i requires 0 <= i < n => ElementAt(dims, a.q4, half, i));
      forall l: nat, h: nat, s: nat | l < dims.layers && h < dims.heads && s < dims.slots
        ensures RowDequantised(dims, a.q4, f32, half, l, h, s, dims.headDim)
      {
        RowInPage(dims, l, h, s);
        forall e | 0 <= e < dims.headDim
          ensures f32[RowStart(dims, l, h, s) + e] == ReadBack(dims, a.q4, half, l, h, s, e)
        {
          ElementAtIs(dims, a.q4, half, l, h, s, e);
        }
      }
      b := a.(copy := Some(f32));
    }
  }

  lemma RefreshExists(dims: Dims, was: seq<real>, save: Save) returns (now: seq<real>)
    requires F32PageOf(dims, |was|) && save.layer < dims.layers && save.slot < dims.slots
    requires |save.src| == Radix(dims.heads, dims.headDim, 0)
    ensures Refreshed(dims, was, save, now)
  {
    now := seq(|was|, i requires 0 <= i < |was| => RefreshedAt(dims, was, save, i));
    forall l: nat, h: nat, s: nat, e: nat | Has(dims, l, h, s, e)
      ensures At(dims, now, l, h, s, e)
           == if l == save.layer && s == save.slot then Element(dims, save.src, h, e) else At(dims, was, l, h, s, e)
    {
      RowInPage(dims, l, h, s);
      var i := RowStart(dims, l, h, s) + e;
      assert IsPlace(dims, l, h, s, e, i);
      forall l': nat, h': nat, s': nat, e': nat | IsPlace(dims, l', h', s', e', i)
        ensures l' == l && h' == h && s' == s && e' == e
      {
        PlaceInjective(dims, l, h, s, e, l', h', s', e');
      }
      assert now[i] == RefreshedAt(dims, was, save, i);
    }
  }

  ghost function RefreshedAt(dims: Dims, was: seq<real>, save: Save, i: nat): real
    requires i < |was| && |save.src| == Radix(dims.heads, dims.headDim, 0)
  {
    if h: nat, e: nat :| IsPlace(dims, save.layer, h, save.slot, e, i) then Element(dims, save.src, h, e) else was[i]
  }

  // ----- refreshing a copy in place -----

  /** The rows of the first n heads hold the vector, and no other element has changed. */
  ghost predicate RefreshedUpto(dims: Dims, was: seq<real>, save: Save, now: seq<real>, n: nat)
  {
    && F32PageOf(dims, |was|) && |now| == |was|
    && save.layer < dims.layers && save.slot < dims.slots && |save.src| == Radix(dims.heads, dims.headDim, 0)
    && forall l: nat, h: nat, s: nat, e: nat :: Has(dims, l, h, s, e) ==>
         At(dims, now, l, h, s, e)
         == if l == save.layer && s == save.slot && h < n then Element(dims, save.src, h, e)
            else At(dims, was, l, h, s, e)
  }

  lemma RefreshedNext(dims: Dims, was: seq<real>, save: Save, mid: seq<real>, now: seq<real>, head: nat)
    requires head < dims.heads && RefreshedUpto(dims, was, save, mid, head) && |now| == |mid|
    requires forall i :: 0 <= i < |now| ==>
        now[i] == if RowStart(dims, save.layer, head, save.slot) <= i
                       < RowStart(dims, save.layer, head, save.slot) + dims.headDim
                  then Element(dims, save.src, head, i - RowStart(dims, save.layer, head, save.slot)) else mid[i]
    ensures RefreshedUpto(dims, was, save, now, head + 1)
  {
    forall l: nat, h: nat, s: nat, e: nat | Has(dims, l, h, s, e)
      ensures At(dims, now, l, h, s, e)
           == if l == save.layer && s == save.slot && h < head + 1 then Element(dims, save.src, h, e)
              else At(dims, was, l, h, s, e)
    {
      RowInPage(dims, l, h, s);
      var at, i := RowStart(dims, save.layer, head, save.slot), RowStart(dims, l, h, s) + e;
      if at <= i < at + dims.headDim {
        PlaceInjective(dims, l, h, s, e, save.layer, head, save.slot, i - at);
      }
      assert At(dims, mid, l, h, s, e) == mid[i];
    }
  }

  /** `save`'s refresh of an existing copy: head by head, the vector over its row. */
  method Refresh(dims: Dims, f32: array<real>, layer: nat, slot: nat, src: seq<F32>)
    requires F32PageOf(dims, f32.Length) && layer < dims.layers && slot < dims.slots
    requires |src| == Radix(dims.heads, dims.headDim, 0)
    modifies f32
    ensures Refreshed(dims, old(f32[..]), Save(layer, slot, src), f32[..])
  {
    ghost var was := f32[..];
    for head := 0 to dims.heads
      invariant RefreshedUpto(dims, was, Save(layer, slot, src), f32[..], head)
    {
      ghost var mid := f32[..];
      RowInPage(dims, layer, head, slot);
      var at, from := RowStart(dims, layer, head, slot), Radix(head, dims.headDim, 0);
      forall e | 0 <= e < dims.headDim {
        f32[at + e] := ElementFrom(dims, src, head, from, e);
      }
      RefreshedNext(dims, was, Save(layer, slot, src), mid, f32[..], head);
    }
  }

  /** Element e of a head's vector, at its offset in all heads' vectors. */
  function ElementFrom(dims: Dims, src: seq<F32>, head: nat, from: nat, e: nat): (x: F32)
    requires |src| == Radix(dims.heads, dims.headDim, 0) && head < dims.heads && e < dims.headDim
    requires from == Radix(head, dims.headDim, 0)
    ensures x == Element(dims, src, head, e)
  {
    RadixShift(head, dims.headDim, e);
    RadixBelow(head, dims.headDim, e, dims.heads);
    src[from + e]
  }

  // ----- when the reader of a single save sees it -----

  /** The nibbles of a layer and slot are all zero, as in a new page. */
  ghost predicate Unwritten(dims: Dims, q4: seq<Byte>, layer: nat, slot: nat)
    requires PageOf(dims, q4) && layer < dims.layers && slot < dims.slots
  {
    forall h: nat, e: nat :: h < dims.heads && e < dims.headDim ==> NibbleOf(dims, q4, layer, h, slot, e) == 0
  }

  function NibbleOf(dims: Dims, q4: seq<Byte>, l: nat, h: nat, s: nat, e: nat): nat
    requires PageOf(dims, q4) && Has(dims, l, h, s, e)
  {
    assert dims.Has(l, h, s, e / 32);
    NibbleAt(BlockOf(dims, q4, l, h, s, e / 32).nibbles, e % 32)
  }

  /** Whatever vector is saved to the layer and slot, a reader who then needs the copy sees it,
      within its blocks' bounds. */
  ghost predicate AlwaysSeen(dims: Dims, half: Half, page: Page, layer: nat, slot: nat, refresh: bool)
  {
    forall src: seq<F32>, saved: Page, read: Page, h: nat, e: nat ::
      && Acted(dims, half, page, Saved(Save(layer, slot, src), refresh), saved)
      && Acted(dims, half, saved, Filled, read) && Has(dims, layer, h, slot, e)
      ==> Within(half, dims, src, h, e, Read(dims, read, layer, h, slot, e))
  }

  /** f16 holds 0, 1 and -7 exactly. */
  predicate HoldsIntegers(half: Half)
  {
    half.Rounded(0.0) == 0.0 && half.Rounded(1.0) == 1.0 && half.Rounded(-7.0) == -7.0
  }

  function Constant(dims: Dims, x: F32): (r: seq<F32>)
    ensures |r| == Radix(dims.heads, dims.headDim, 0)
  {
    seq(Radix(dims.heads, dims.headDim, 0), _ => x)
  }

  /** A vector of equal numbers has one level, and a header that f16 holds if it holds them. */
  lemma ConstantIs(dims: Dims, half: Half, x: F32, h: nat, e: nat)
    requires HoldsIntegers(half) && (x == 0.0 || x == -7.0) && h < dims.heads && e < dims.headDim
    ensures Element(dims, Constant(dims, x), h, e) == x
    ensures
      var part := Part(dims, Constant(dims, x), h, e / 32);
      && e % 32 < |part| && MaxAbs(part) == Abs(x) && Least(part) == x && Scale(part) == Abs(x) / 7.0
      && ExactHeader(half, part) && Levels(part)[e % 32] == 0
  {
    var part := Part(dims, Constant(dims, x), h, e / 32);
    PartIs(dims, Constant(dims, x), h, e);
    PartConstant(dims, x, h, e / 32);
    ConstantBlock(part, x);
    assert Quant(x, Scale(part), x) == 0;
  }

  lemma PartConstant(dims: Dims, x: F32, h: nat, b: nat)
    requires h < dims.heads && b < dims.BlocksPerHead()
    ensures
      var part := Part(dims, Constant(dims, x), h, b);
      forall i :: 0 <= i < |part| ==> part[i] == x
  {
    var part := Part(dims, Constant(dims, x), h, b);
    forall i: nat | i < |part|
      ensures part[i] == x
    {
      var e := b * 32 + i;
      assert e / 32 == b && e % 32 == i;
      PartIs(dims, Constant(dims, x), h, e);
      RadixBelow(h, dims.headDim, e, dims.heads);
    }
  }

  /** What a reader sees of a constant saved without refreshing a copy: its level is what the nibble
      held before. */
  lemma ConstantRead(dims: Dims, half: Half, page: Page, layer: nat, slot: nat, x: F32, refresh: bool, saved: Page,
                     read: Page, h: nat, e: nat)
    requires HoldsIntegers(half) && (x == 0.0 || x == -7.0) && Has(dims, layer, h, slot, e) && page.copy.None?
    requires Acted(dims, half, page, Saved(Save(layer, slot, Constant(dims, x)), refresh), saved)
    requires Acted(dims, half, saved, Filled, read)
    ensures Read(dims, read, layer, h, slot, e)
         == KvQuant.Steps(Abs(x) / 7.0, NibbleOf(dims, page.q4, layer, h, slot, e)) + x
  {
    FilledReads(dims, half, saved, read, layer, h, slot, e);
    assert dims.Has(layer, h, slot, e / 32);
    ConstantIs(dims, half, x, h, e);
    var part, was := Part(dims, Constant(dims, x), h, e / 32), BlockOf(dims, page.q4, layer, h, slot, e / 32).nibbles;
    SavedReads(was, part, half, e % 32);
    assert Or(NibbleAt(was, e % 32), 0) == NibbleAt(was, e % 32);
  }

  /** Into an unwritten slot of a page without a copy every vector is saved so that a reader sees it. */
  lemma UnwrittenSeen(dims: Dims, half: Half, page: Page, layer: nat, slot: nat, refresh: bool, src: seq<F32>,
                      saved: Page, read: Page, h: nat, e: nat)
    requires Acted(dims, half, page, Saved(Save(layer, slot, src), refresh), saved)
    requires Acted(dims, half, saved, Filled, read) && Has(dims, layer, h, slot, e)
    requires page.copy.None? && Unwritten(dims, page.q4, layer, slot)
    ensures Within(half, dims, src, h, e, Read(dims, read, layer, h, slot, e))
  {
    FilledReads(dims, half, saved, read, layer, h, slot, e);
    UnwrittenFresh(dims, page.q4, layer, h, slot, e / 32);
    SavedReadsBack(dims, page.q4, saved.q4, layer, slot, src, half, h, e);
  }

  lemma UnwrittenFresh(dims: Dims, q4: seq<Byte>, layer: nat, h: nat, slot: nat, b: nat)
    requires PageOf(dims, q4) && dims.Has(layer, h, slot, b) && Unwritten(dims, q4, layer, slot)
    ensures Fresh(BlockOf(dims, q4, layer, h, slot, b).nibbles, Min(32, dims.headDim - b * 32))
  {
    forall i: nat | i < Min(32, dims.headDim - b * 32)
      ensures NibbleAt(BlockOf(dims, q4, layer, h, slot, b).nibbles, i) == 0
    {
      var e := b * 32 + i;
      assert e / 32 == b && e % 32 == i;
      assert NibbleOf(dims, q4, layer, h, slot, e) == 0;
    }
  }

  /** A vector saved exactly is within every bound. */
  lemma ExactWithin(half: Half, dims: Dims, src: seq<F32>, h: nat, e: nat)
    requires |src| == Radix(dims.heads, dims.headDim, 0) && h < dims.heads && e < dims.headDim
    ensures Within(half, dims, src, h, e, Element(dims, src, h, e))
  {
    PartIs(dims, src, h, e);
    var magnitude := Abs(Part(dims, src, h, e / 32)[e % 32]);
  }

  lemma OutcomeExists(dims: Dims, half: Half, page: Page, layer: nat, slot: nat, src: seq<F32>, refresh: bool)
    returns (saved: Page, read: Page)
    requires PageOk(dims, page) && layer < dims.layers && slot < dims.slots &&
        |src| == Radix(dims.heads, dims.headDim, 0)
    ensures Acted(dims, half, page, Saved(Save(layer, slot, src), refresh), saved)
    ensures Acted(dims, half, saved, Filled, read)
  {
    var q4 := SaveExists(dims, page.q4, layer, slot, src, half);
    if refresh && page.copy.Some? {
      var now := RefreshExists(dims, page.copy.value, Save(layer, slot, src));
      saved := Page(q4, Some(now));
    } else {
      saved := Page(q4, page.copy);
    }
    read := CopyExists(dims, half, saved);
  }

  /** A nibble that is not zero shows in a constant saved over it. */
  lemma WrittenShows(dims: Dims, half: Half, page: Page, layer: nat, slot: nat, refresh: bool, h: nat, e: nat)
    requires PageOk(dims, page) && Has(dims, layer, h, slot, e) && HoldsIntegers(half) && page.copy.None?
    requires NibbleOf(dims, page.q4, layer, h, slot, e) > 0
    ensures !AlwaysSeen(dims, half, page, layer, slot, refresh)
  {
    var src, n := Constant(dims, -7.0), NibbleOf(dims, page.q4, layer, h, slot, e);
    var saved, read := OutcomeExists(dims, half, page, layer, slot, src, refresh);
    ConstantRead(dims, half, page, layer, slot, -7.0, refresh, saved, read, h, e);
    StepsIs(1.0, n);
    ConstantIs(dims, half, -7.0, h, e);
    PartConstant(dims, -7.0, h, e / 32);
    assert !Within(half, dims, src, h, e, Read(dims, read, layer, h, slot, e));
  }

  /** A copy that is not refreshed cannot show both of two different vectors. */
  lemma StaleShows(dims: Dims, half: Half, page: Page, layer: nat, slot: nat)
    requires PageOk(dims, page) && Has(dims, layer, 0, slot, 0) && HoldsIntegers(half) && page.copy.Some?
    ensures !AlwaysSeen(dims, half, page, layer, slot, false)
  {
    var a, b := Constant(dims, 0.0), Constant(dims, -7.0);
    var savedA, readA := OutcomeExists(dims, half, page, layer, slot, a, false);
    var savedB, readB := OutcomeExists(dims, half, page, layer, slot, b, false);
    ConstantIs(dims, half, 0.0, 0, 0);
    ConstantIs(dims, half, -7.0, 0, 0);
    assert Read(dims, readA, layer, 0, slot, 0) == Read(dims, readB, layer, 0, slot, 0);
    assert !Within(half, dims, a, 0, 0, Read(dims, readA, layer, 0, slot, 0)) ||
        !Within(half, dims, b, 0, 0, Read(dims, readB, layer, 0, slot, 0));
  }

  lemma NotUnwritten(dims: Dims, half: Half, page: Page, layer: nat, slot: nat, refresh: bool)
    requires PageOk(dims, page) && layer < dims.layers && slot < dims.slots && HoldsIntegers(half) && page.copy.None?
    requires !Unwritten(dims, page.q4, layer, slot)
    ensures !AlwaysSeen(dims, half, page, layer, slot, refresh)
  {
    var h: nat, e: nat :| h < dims.heads && e < dims.headDim && NibbleOf(dims, page.q4, layer, h, slot, e) != 0;
    WrittenShows(dims, half, page, layer, slot, refresh, h, e);
  }

  lemma AlwaysUnwritten(dims: Dims, half: Half, page: Page, layer: nat, slot: nat, refresh: bool)
    requires PageOk(dims, page) && layer < dims.layers && slot < dims.slots && page.copy.None?
    requires Unwritten(dims, page.q4, layer, slot)
    ensures AlwaysSeen(dims, half, page, layer, slot, refresh)
  {
    forall src: seq<F32>, saved: Page, read: Page, h: nat, e: nat |
      && Acted(dims, half, page, Saved(Save(layer, slot, src), refresh), saved)
      && Acted(dims, half, saved, Filled, read) && Has(dims, layer, h, slot, e)
      ensures Within(half, dims, src, h, e, Read(dims, read, layer, h, slot, e))
    {
      UnwrittenSeen(dims, half, page, layer, slot, refresh, src, saved, read, h, e);
    }
  }

  /** A reader is sure to see a `save_at` exactly when the page had no copy, and the slot's nibbles
      are still zero. */
  lemma SaveAtSeenExact(dims: Dims, half: Half, page: Page, layer: nat, slot: nat)
    requires PageOk(dims, page) && Has(dims, layer, 0, slot, 0) && HoldsIntegers(half)
    ensures AlwaysSeen(dims, half, page, layer, slot, false) <==>
        page.copy.None? && Unwritten(dims, page.q4, layer, slot)
  {
    if page.copy.Some? {
      StaleShows(dims, half, page, layer, slot);
    } else if Unwritten(dims, page.q4, layer, slot) {
      AlwaysUnwritten(dims, half, page, layer, slot, false);
    } else {
      NotUnwritten(dims, half, page, layer, slot, false);
    }
  }

  /** And a `save` exactly when the page had a copy, or they are. */
  lemma SaveSeenExact(dims: Dims, half: Half, page: Page, layer: nat, slot: nat)
    requires PageOk(dims, page) && Has(dims, layer, 0, slot, 0) && HoldsIntegers(half)
    ensures AlwaysSeen(dims, half, page, layer, slot, true) <==>
        page.copy.Some? || Unwritten(dims, page.q4, layer, slot)
  {
    if page.copy.Some? {
      forall src: seq<F32>, saved: Page, read: Page, h: nat, e: nat |
        && Acted(dims, half, page, Saved(Save(layer, slot, src), true), saved)
        && Acted(dims, half, saved, Filled, read) && Has(dims, layer, h, slot, e)
        ensures Within(half, dims, src, h, e, Read(dims, read, layer, h, slot, e))
      {
        ExactWithin(half, dims, src, h, e);
      }
    } else if Unwritten(dims, page.q4, layer, slot) {
      AlwaysUnwritten(dims, half, page, layer, slot, true);
    } else {
      NotUnwritten(dims, half, page, layer, slot, true);
    }
  }

  // ----- whole runs -----

  /** What a new page goes through: its bytes are zero, and it has no copy. */
  ghost predicate IsPageRun(dims: Dims, half: Half, pages: seq<Page>, acts: seq<Act>)
  {
    && |pages| == |acts| + 1 && PageOk(dims, pages[0]) && pages[0].copy.None?
    && (forall i :: 0 <= i < |pages[0].q4| ==> pages[0].q4[i] == 0)
    && forall k :: 0 <= k < |acts| ==> Acted(dims, half, pages[k], acts[k], pages[k + 1])
  }

  function SaveOf(act: Act): Option<Save>
  {
    if act.Saved? then Some(act.save) else None
  }

  /** Act k saves to its layer and slot, and no other one does. */
  ghost predicate SavedOnce(acts: seq<Act>, k: nat)
    requires k < |acts|
  {
    && acts[k].Saved?
    && forall j :: 0 <= j < |acts| && j != k && acts[j].Saved? ==>
         acts[j].save.layer != acts[k].save.layer || acts[j].save.slot != acts[k].save.slot
  }

  /** From then on the bytes read back as the vector, */
  lemma BytesSeen(dims: Dims, half: Half, pages: seq<Page>, acts: seq<Act>, k: nat, j: nat, h: nat, e: nat)
    requires IsPageRun(dims, half, pages, acts) && k < j <= |acts| && SavedOnce(acts, k)
    requires h < dims.heads && e < dims.headDim
    ensures
      var s := acts[k].save;
      && PageOf(dims, pages[j].q4) && s.layer < dims.layers && s.slot < dims.slots
      && |s.src| == Radix(dims.heads, dims.headDim, 0)
      && Within(half, dims, s.src, h, e, ReadBack(dims, pages[j].q4, half, s.layer, h, s.slot, e))
  {
    var q4s := seq(j + 1, i requires 0 <= i <= j => pages[i].q4);
    var saves := seq(j, i requires 0 <= i < j => SaveOf(acts[i]));
    forall i | 0 <= i < j
      ensures KvPages.Steps(dims, q4s[i], saves[i], q4s[i + 1], half)
    {
      assert Acted(dims, half, pages[i], acts[i], pages[i + 1]);
    }
    StepsKeepSize(dims, q4s, saves, half);
    EverySaveReadsBack(dims, q4s, saves, half, k, h, e);
  }

  ghost predicate WithoutCopy(pages: seq<Page>, from: nat, to: nat)
    requires to < |pages|
  {
    exists i :: from <= i <= to && pages[i].copy.None?
  }

  /** What a reader sees at element e of head h, j - k acts after act k: the vector saved then; but
      after a `save_at` into a copy that has not been dropped since, what the copy held before. */
  ghost predicate SeesSaved(dims: Dims, half: Half, pages: seq<Page>, acts: seq<Act>, k: nat, j: nat, h: nat, e: nat)
    requires |pages| == |acts| + 1 && k < j <= |acts| && acts[k].Saved?
    requires PageOk(dims, pages[k]) && PageOk(dims, pages[j]) && pages[j].copy.Some?
  {
    var s := acts[k].save;
    && |s.src| == Radix(dims.heads, dims.headDim, 0) && Has(dims, s.layer, h, s.slot, e)
    && if acts[k].refresh || WithoutCopy(pages, k, j)
       then Within(half, dims, s.src, h, e, Read(dims, pages[j], s.layer, h, s.slot, e))
       else pages[k].copy.Some? &&
            Read(dims, pages[j], s.layer, h, s.slot, e) == Read(dims, pages[k], s.layer, h, s.slot, e)
  }

  lemma FirstSees(dims: Dims, half: Half, pages: seq<Page>, acts: seq<Act>, k: nat, h: nat, e: nat)
    requires IsPageRun(dims, half, pages, acts) && k < |acts| && acts[k].Saved?
    requires h < dims.heads && e < dims.headDim && pages[k + 1].copy.Some?
    ensures PageOk(dims, pages[k]) && PageOk(dims, pages[k + 1]) && SeesSaved(dims, half, pages, acts, k, k + 1, h, e)
  {
    assert Acted(dims, half, pages[k], acts[k], pages[k + 1]);
    ExactWithin(half, dims, acts[k].save.src, h, e);
  }

  lemma NextSees(dims: Dims, half: Half, pages: seq<Page>, acts: seq<Act>, k: nat, j: nat, h: nat, e: nat)
    requires IsPageRun(dims, half, pages, acts) && k < j < |acts| && SavedOnce(acts, k)
    requires h < dims.heads && e < dims.headDim && pages[j + 1].copy.Some?
    requires PageOk(dims, pages[k]) && PageOk(dims, pages[j])
    requires pages[j].copy.Some? ==> SeesSaved(dims, half, pages, acts, k, j, h, e)
    ensures PageOk(dims, pages[j + 1]) && SeesSaved(dims, half, pages, acts, k, j + 1, h, e)
  {
    var save := acts[k].save;
    assert Acted(dims, half, pages[j], acts[j], pages[j + 1]);
    BytesSeen(dims, half, pages, acts, k, j + 1, h, e);
    if pages[j].copy.None? {
      FilledReads(dims, half, pages[j], pages[j + 1], save.layer, h, save.slot, e);
    } else {
      assert Read(dims, pages[j + 1], save.layer, h, save.slot, e) == Read(dims, pages[j], save.layer, h, save.slot, e);
      assert WithoutCopy(pages, k, j + 1) <==> WithoutCopy(pages, k, j);
    }
  }

  /** Over every run, a vector saved once to its layer and slot is what every later reader sees,
      within its blocks' bounds, unless it was saved by `save_at` and the page has had its copy
      ever since before: then a reader sees what the copy held before the save. */
  lemma {:induction false} EverySaveSeen(dims: Dims, half: Half, pages: seq<Page>, acts: seq<Act>, k: nat, j: nat,
                                         h: nat, e: nat)
    requires IsPageRun(dims, half, pages, acts) && k < j <= |acts| && SavedOnce(acts, k)
    requires h < dims.heads && e < dims.headDim && pages[j].copy.Some?
    ensures PageOk(dims, pages[k]) && PageOk(dims, pages[j]) && SeesSaved(dims, half, pages, acts, k, j, h, e)
    decreases j
  {
    assert Acted(dims, half, pages[k], acts[k], pages[k + 1]);
    if j == k + 1 {
      FirstSees(dims, half, pages, acts, k, h, e);
    } else {
      assert Acted(dims, half, pages[j - 1], acts[j - 1], pages[j - 1 + 1]);
      if pages[j - 1].copy.Some? {
        EverySaveSeen(dims, half, pages, acts, k, j - 1, h, e);
      }
      NextSees(dims, half, pages, acts, k, j - 1, h, e);
    }
  }

  // ----- prefill -----

  /** A page without a copy goes through a prefill of one slot: layer by layer, the layer's vector is
      saved by `save_at`, and then attention makes the copy, for all layers. */
  ghost predicate IsPrefill(dims: Dims, half: Half, pages: seq<Page>, slot: nat, vs: seq<seq<F32>>)
  {
    && |pages| == 2 * |vs| + 1 && |vs| <= dims.layers && pages[0].copy.None?
    && forall l: nat :: l < |vs| ==> LayerDone(dims, half, pages, slot, vs, l)
  }

  ghost predicate LayerDone(dims: Dims, half: Half, pages: seq<Page>, slot: nat, vs: seq<seq<F32>>, l: nat)
    requires |pages| == 2 * |vs| + 1 && l < |vs|
  {
    && Acted(dims, half, pages[2 * l], Saved(Save(l, slot, vs[l]), false), pages[2 * l + 1])
    && Acted(dims, half, pages[2 * l + 1], Filled, pages[2 * l + 2])
  }

  /** The copy stays as layer 0's attention made it. */
  lemma {:induction false} PrefillCopy(dims: Dims, half: Half, pages: seq<Page>, slot: nat, vs: seq<seq<F32>>, l: nat)
    requires IsPrefill(dims, half, pages, slot, vs) && l < |vs|
    ensures pages[2].copy.Some? && pages[2 * l + 2].copy == pages[2].copy
    ensures l > 0 ==> pages[2 * l + 1].copy == pages[2].copy
  {
    assert LayerDone(dims, half, pages, slot, vs, l);
    if l > 0 {
      PrefillCopy(dims, half, pages, slot, vs, l - 1);
    }
  }

  /** What attention at layer l sees of the slot: layer 0 the vector it has just saved, as stored;
      every later layer what was stored there before the prefill. */
  lemma PrefillSees(dims: Dims, half: Half, pages: seq<Page>, slot: nat, vs: seq<seq<F32>>, l: nat, h: nat, e: nat)
    requires IsPrefill(dims, half, pages, slot, vs) && l < |vs| && slot < dims.slots && Has(dims, l, h, slot, e)
    ensures PageOk(dims, pages[0]) && PageOk(dims, pages[1]) && PageOk(dims, pages[2 * l + 2])
    ensures pages[2 * l + 2].copy.Some?
    ensures Read(dims, pages[2 * l + 2], l, h, slot, e)
         == ReadBack(dims, if l == 0 then pages[1].q4 else pages[0].q4, half, l, h, slot, e)
  {
    PrefillCopy(dims, half, pages, slot, vs, l);
    assert LayerDone(dims, half, pages, slot, vs, 0) && LayerDone(dims, half, pages, slot, vs, l);
    FilledReads(dims, half, pages[1], pages[2], l, h, slot, e);
    if l > 0 {
      OthersReadBack(dims, pages[0].q4, pages[1].q4, 0, slot, vs[0], half, l, h, slot, e);
    }
  }

  /** A layer's block of the slot before its own save, and from it on. */
  lemma {:induction false} PrefillBlocks(dims: Dims, half: Half, pages: seq<Page>, slot: nat, vs: seq<seq<F32>>, n: nat,
                                         l: nat, h: nat, b: nat)
    requires IsPrefill(dims, half, pages, slot, vs) && n <= |vs| && |vs| > l && dims.Has(l, h, slot, b)
    ensures PageOf(dims, pages[0].q4) && PageOf(dims, pages[2 * l + 1].q4) && PageOf(dims, pages[2 * n].q4)
    ensures BlockOf(dims, pages[2 * n].q4, l, h, slot, b)
         == BlockOf(dims, if n <= l then pages[0].q4 else pages[2 * l + 1].q4, l, h, slot, b)
  {
    assert LayerDone(dims, half, pages, slot, vs, 0) && LayerDone(dims, half, pages, slot, vs, l);
    if n > 0 {
      PrefillBlocks(dims, half, pages, slot, vs, n - 1, l, h, b);
      assert LayerDone(dims, half, pages, slot, vs, n - 1);
    }
  }

  /** The stored bytes themselves are right: once the copy is dropped and made again, every layer is
      seen, within its blocks' bounds, if the slot was unwritten before the prefill. */
  lemma PrefillSeenAfterEviction(dims: Dims, half: Half, pages: seq<Page>, slot: nat, vs: seq<seq<F32>>, dropped: Page,
                                 read: Page, l: nat, h: nat, e: nat)
    requires IsPrefill(dims, half, pages, slot, vs) && l < |vs| && slot < dims.slots && Has(dims, l, h, slot, e)
    requires Acted(dims, half, pages[2 * |vs|], Dropped, dropped) && Acted(dims, half, dropped, Filled, read)
    requires PageOf(dims, pages[0].q4) && Unwritten(dims, pages[0].q4, l, slot)
    ensures |vs[l]| == Radix(dims.heads, dims.headDim, 0)
    ensures Within(half, dims, vs[l], h, e, Read(dims, read, l, h, slot, e))
  {
    var b := e / 32;
    assert dims.Has(l, h, slot, b);
    FilledReads(dims, half, dropped, read, l, h, slot, e);
    PrefillBlocks(dims, half, pages, slot, vs, |vs|, l, h, b);
    PrefillBlocks(dims, half, pages, slot, vs, l, l, h, b);
    assert LayerDone(dims, half, pages, slot, vs, l);
    UnwrittenFresh(dims, pages[0].q4, l, h, slot, b);
    SavedReadsBack(dims, pages[2 * l].q4, pages[2 * l + 1].q4, l, slot, vs[l], half, h, e);
  }
}
