// One zone of the tiered KV cache: its pages, and the LRU list threaded through them
// by index arrays.
module CacheZones {
  import opened Common
  import L = LruSpec

  datatype PageState = Hot | Cold(slot: nat)

  /** The dequantised key and value buffers of a page. */
  datatype Copies = Copies(k: seq<real>, v: seq<real>)

  /** The neighbours of the i-th page of a list. */
  function Before(order: seq<nat>, i: nat): Option<nat>
    requires i < |order|
  {
    if i == 0 then None else Some(order[i - 1])
  }

  function After(order: seq<nat>, i: nat): Option<nat>
    requires i < |order|
  {
    if i == |order| - 1 then None else Some(order[i + 1])
  }

  /** prev/next/head/tail thread exactly the pages of `order`, from head to tail. */
  ghost predicate Linked(order: seq<nat>, prev: seq<Option<nat>>, next: seq<Option<nat>>,
                         head: Option<nat>, tail: Option<nat>)
  {
    && |prev| == |next|
    && Distinct(order)
    && (forall i :: 0 <= i < |order| ==> order[i] < |prev|)
    && head == (if order == [] then None else Some(order[0]))
    && tail == (if order == [] then None else Some(order[|order| - 1]))
    && (forall i {:trigger prev[order[i]]} :: 0 <= i < |order| ==> prev[order[i]] == Before(order, i))
    && (forall i {:trigger next[order[i]]} :: 0 <= i < |order| ==> next[order[i]] == After(order, i))
  }

  lemma LinkedAt(order: seq<nat>, prev: seq<Option<nat>>, next: seq<Option<nat>>,
                 head: Option<nat>, tail: Option<nat>, i: nat)
    requires Linked(order, prev, next, head, tail) && i < |order|
    ensures order[i] < |prev| && prev[order[i]] == Before(order, i) && next[order[i]] == After(order, i)
    ensures i > 0 ==> order[i - 1] < |prev| && order[i - 1] != order[i]
    ensures i < |order| - 1 ==> order[i + 1] < |prev| && order[i + 1] != order[i]
    ensures (head == Some(order[i]) <==> i == 0) && (tail == Some(order[i]) <==> i == |order| - 1)
  {
  }

  /** Bypassing the page at position i leaves the list of the others. */
  lemma LinkedBypass(order: seq<nat>, prev: seq<Option<nat>>, next: seq<Option<nat>>,
                     head: Option<nat>, tail: Option<nat>, i: nat,
                     prev': seq<Option<nat>>, next': seq<Option<nat>>, head': Option<nat>, tail': Option<nat>)
    requires Linked(order, prev, next, head, tail) && i < |order|
    requires |prev'| == |prev| && |next'| == |next|
    requires forall q :: 0 <= q < |prev| ==>
        prev'[q] == if i < |order| - 1 && q == order[i + 1] then prev[order[i]] else prev[q]
    requires forall q :: 0 <= q < |next| ==> next'[q] == if i > 0 && q == order[i - 1] then next[order[i]] else next[q]
    requires head' == if i == 0 then next[order[i]] else head
    requires tail' == if i == |order| - 1 then prev[order[i]] else tail
    ensures Linked(RemoveAt(order, i), prev', next', head', tail')
  {
    var rest := RemoveAt(order, i);
    RemoveAtDistinct(order, i);
    forall k {:trigger prev'[rest[k]]} | 0 <= k < |rest|
      ensures prev'[rest[k]] == Before(rest, k)
    {
      LinkedAt(order, prev, next, head, tail, if k < i then k else k + 1);
      LinkedAt(order, prev, next, head, tail, i);
    }
    forall k {:trigger next'[rest[k]]} | 0 <= k < |rest|
      ensures next'[rest[k]] == After(rest, k)
    {
      LinkedAt(order, prev, next, head, tail, if k < i then k else k + 1);
      LinkedAt(order, prev, next, head, tail, i);
    }
    assert Linked(rest, prev', next', head', tail');
  }

  /** The links of a page off the list do not matter. */
  lemma LinkedElsewhere(order: seq<nat>, prev: seq<Option<nat>>, next: seq<Option<nat>>,
                        head: Option<nat>, tail: Option<nat>, p: nat, a: Option<nat>, b: Option<nat>)
    requires Linked(order, prev, next, head, tail) && p < |prev| && p !in order
    ensures Linked(order, prev[p := a], next[p := b], head, tail)
  {
  }

  lemma LinkedGrow(order: seq<nat>, prev: seq<Option<nat>>, next: seq<Option<nat>>,
                   head: Option<nat>, tail: Option<nat>)
    requires Linked(order, prev, next, head, tail)
    ensures Linked(order, prev + [None], next + [None], head, tail)
    ensures |prev| !in order
  {
    forall i | 0 <= i < |order|
      ensures (prev + [None])[order[i]] == prev[order[i]] && (next + [None])[order[i]] == next[order[i]]
    {
    }
    assert Linked(order, prev + [None], next + [None], head, tail);
  }

  lemma LinkedPushFront(order: seq<nat>, prev: seq<Option<nat>>, next: seq<Option<nat>>,
                        head: Option<nat>, tail: Option<nat>, p: nat)
    requires Linked(order, prev, next, head, tail) && p < |prev| && p !in order && prev[p] == None && next[p] == head
    requires head.Some? ==> head.value < |prev|
    ensures Linked([p] + order, if head.Some? then prev[head.value := Some(p)] else prev, next,
                   Some(p), if tail.None? then Some(p) else tail)
  {
    var longer, prev' := [p] + order, if head.Some? then prev[head.value := Some(p)] else prev;
    forall k {:trigger prev'[longer[k]]} | 0 <= k < |longer|
      ensures prev'[longer[k]] == Before(longer, k)
    {
      if k > 0 {
        LinkedAt(order, prev, next, head, tail, k - 1);
      }
    }
    forall k {:trigger next[longer[k]]} | 0 <= k < |longer|
      ensures next[longer[k]] == After(longer, k)
    {
      if k > 0 {
        LinkedAt(order, prev, next, head, tail, k - 1);
      }
    }
    assert Linked(longer, prev', next, Some(p), if tail.None? then Some(p) else tail);
  }

  class CacheZone {
    var kQ4Pages: seq<Option<seq<Byte>>>   // None is the null pointer of an evicted page
    var vQ4Pages: seq<Option<seq<Byte>>>
    var f32Pages: seq<Option<Copies>>      // None until the dequantised copies are made
    var pageState: seq<PageState>
    var lruPrev: seq<Option<nat>>
    var lruNext: seq<Option<nat>>
    var lruHead: Option<nat>
    var lruTail: Option<nat>
    var hotCount: nat
    var importance: seq<real>

    ghost var order: seq<nat>              // the hot pages, most recently used first

    ghost predicate LruOk()
      reads this
    {
      Linked(order, lruPrev, lruNext, lruHead, lruTail)
    }

    /** The pages agree with the list: hot pages are on it and hold bytes, cold ones hold nothing. */
    ghost predicate PagesOk(q4Bytes: nat)
      reads this
    {
      && |kQ4Pages| == |vQ4Pages| == |f32Pages| == |pageState| == |lruPrev| == |importance|
      && hotCount == |order|
      && (forall p :: 0 <= p < |pageState| ==> (pageState[p].Hot? <==> p in order))
      && (forall p :: 0 <= p < |pageState| ==>
            if pageState[p].Hot? then
              && kQ4Pages[p].Some? && |kQ4Pages[p].value| == q4Bytes
              && vQ4Pages[p].Some? && |vQ4Pages[p].value| == q4Bytes
            else kQ4Pages[p].None? && vQ4Pages[p].None? && f32Pages[p].None?)
    }

    ghost predicate Valid(q4Bytes: nat)
      reads this
    {
      LruOk() && PagesOk(q4Bytes)
    }

    ghost function View(): L.View
      reads this
    {
      L.View(order, importance)
    }

    constructor ()
      ensures order == [] && hotCount == 0 && pageState == [] && kQ4Pages == [] && vQ4Pages == [] && importance == []
      ensures f32Pages == []
      ensures forall q :: Valid(q)
    {
      kQ4Pages, vQ4Pages, f32Pages, pageState := [], [], [], [];
      lruPrev, lruNext, lruHead, lruTail := [], [], None, None;
      hotCount, importance, order := 0, [], [];
    }

    /** Put an unlinked page at the head. */
    method LinkFront(p: nat)
      requires LruOk() && p < |lruPrev| && p !in order && lruPrev[p] == None
      modifies this`lruPrev, this`lruNext, this`lruHead, this`lruTail, this`order
      ensures LruOk() && order == [p] + old(order) && |lruPrev| == old(|lruPrev|)
    {
      LinkedElsewhere(order, lruPrev, lruNext, lruHead, lruTail, p, None, lruHead);
      assert lruPrev == lruPrev[p := None];
      lruNext := lruNext[p := lruHead];
      LinkedPushFront(order, lruPrev, lruNext, lruHead, lruTail, p);
      if lruHead.Some? {
        lruPrev := lruPrev[lruHead.value := Some(p)];
      }
      lruHead := Some(p);
      if lruTail.None? {
        lruTail := Some(p);
      }
      order := [p] + order;
    }

    /** Take a page off the list. */
    method Unlink(p: nat)
      requires LruOk() && p in order
      modifies this`lruPrev, this`lruNext, this`lruHead, this`lruTail, this`order
      ensures LruOk() && order == RemoveAt(old(order), IndexOf(old(order), p))
      ensures p !in order && |lruPrev| == old(|lruPrev|) && lruPrev[p] == None
    {
      ghost var i := IndexOf(order, p);
      RemoveAtMembers(order, i, p);
      LinkedAt(order, lruPrev, lruNext, lruHead, lruTail, i);
      var prev, next := lruPrev[p], lruNext[p];
      if prev.Some? {
        lruNext := lruNext[prev.value := next];
      }
      if next.Some? {
        lruPrev := lruPrev[next.value := prev];
      }
      if lruHead == Some(p) {
        lruHead := next;
      }
      if lruTail == Some(p) {
        lruTail := prev;
      }
      LinkedBypass(order, old(lruPrev), old(lruNext), old(lruHead), old(lruTail), i, lruPrev, lruNext, lruHead,
                   lruTail);
      order := RemoveAt(order, i);
      LinkedElsewhere(order, lruPrev, lruNext, lruHead, lruTail, p, None, None);
      lruPrev := lruPrev[p := None];
      lruNext := lruNext[p := None];
    }

    /** Move a hot page to the head. */
    method Touch(p: nat)
      requires LruOk() && p in order
      modifies this`lruPrev, this`lruNext, this`lruHead, this`lruTail, this`order
      ensures LruOk() && order == [p] + RemoveAt(old(order), IndexOf(old(order), p))
      ensures |lruPrev| == old(|lruPrev|)
    {
      ghost var i := IndexOf(order, p);
      LinkedAt(order, lruPrev, lruNext, lruHead, lruTail, i);
      if lruHead == Some(p) {
        assert order == [p] + RemoveAt(order, 0);
        return;
      }
      RemoveAtMembers(order, i, p);
      var prev, next := lruPrev[p], lruNext[p];
      if prev.Some? {
        lruNext := lruNext[prev.value := next];
      }
      if next.Some? {
        lruPrev := lruPrev[next.value := prev];
      }
      if lruTail == Some(p) {
        lruTail := prev;
      }
      LinkedBypass(order, old(lruPrev), old(lruNext), old(lruHead), old(lruTail), i, lruPrev, lruNext, lruHead,
                   lruTail);
      order := RemoveAt(order, i);
      LinkedElsewhere(order, lruPrev, lruNext, lruHead, lruTail, p, None, lruHead);
      lruPrev := lruPrev[p := None];
      lruNext := lruNext[p := lruHead];
      LinkedPushFront(order, lruPrev, lruNext, lruHead, lruTail, p);
      if lruHead.Some? {
        lruPrev := lruPrev[lruHead.value := Some(p)];
      }
      lruHead := Some(p);
      lruTail := if lruTail.None? then Some(p) else lruTail;
      order := [p] + order;
    }

    /** The page to evict: least important among the last eight, nearest the tail on a tie. */
    method PickVictim() returns (best: nat)
      requires LruOk() && |importance| == |lruPrev| && order != []
      ensures best == order[L.VictimIndex(View())]
    {
      best := lruTail.value;
      LinkedAt(order, lruPrev, lruNext, lruHead, lruTail, |order| - 1);
      var bestImportance := importance[best];
      var cursor := lruPrev[best];
      ghost var view, lo: nat := View(), |order| - 1;   // lo: position of the last page looked at
      var steps := 0;
      while steps < 7 && cursor.Some?
        invariant steps <= 7 && lo == |order| - 1 - steps
        invariant best == order[L.VictimFrom(view, lo)] && bestImportance == importance[best]
        invariant cursor == Before(order, lo)
      {
        var id := cursor.value;
        lo := lo - 1;
        LinkedAt(order, lruPrev, lruNext, lruHead, lruTail, lo);
        if importance[id] < bestImportance {
          bestImportance := importance[id];
          best := id;
        }
        cursor := lruPrev[id];
        steps := steps + 1;
      }
      assert lo == L.WindowStart(view);
    }

    /** Every list gets an entry for a new page, which is not linked yet. */
    method PushPage(q4Bytes: nat) returns (p: nat)
      requires Valid(q4Bytes)
      modifies this
      ensures LruOk() && p == old(|pageState|) && p !in order && |lruPrev| == p + 1 && lruPrev[p] == None
      ensures order == old(order) && hotCount == old(hotCount) && importance == old(importance) + [0.0]
      ensures pageState == old(pageState) + [Hot] && f32Pages == old(f32Pages) + [None]
      ensures kQ4Pages == old(kQ4Pages) + [Some(seq(q4Bytes, _ => 0))]
      ensures vQ4Pages == old(vQ4Pages) + [Some(seq(q4Bytes, _ => 0))]
    {
      p := |kQ4Pages|;
      kQ4Pages := kQ4Pages + [Some(seq(q4Bytes, _ => 0))];
      vQ4Pages := vQ4Pages + [Some(seq(q4Bytes, _ => 0))];
      f32Pages := f32Pages + [None];
      pageState := pageState + [Hot];
      importance := importance + [0.0];
      LinkedGrow(order, lruPrev, lruNext, lruHead, lruTail);
      lruPrev := lruPrev + [None];
      lruNext := lruNext + [None];
    }

    /** A new zeroed page, hot and most recently used. */
    method AllocHotPage(q4Bytes: nat) returns (p: nat)
      requires Valid(q4Bytes)
      modifies this
      ensures Valid(q4Bytes) && p == old(|pageState|)
      ensures order == [p] + old(order) && importance == old(importance) + [0.0]
      ensures pageState == old(pageState) + [Hot] && f32Pages == old(f32Pages) + [None]
      ensures kQ4Pages == old(kQ4Pages) + [Some(seq(q4Bytes, _ => 0))]
      ensures vQ4Pages == old(vQ4Pages) + [Some(seq(q4Bytes, _ => 0))]
    {
      p := PushPage(q4Bytes);
      hotCount := hotCount + 1;
      LinkFront(p);
      assert forall x :: x in order <==> x == p || x in old(order);
    }

    /** A page goes cold: off the list, its buffers freed. */
    method Evict(p: nat, slot: nat, ghost q4Bytes: nat)
      requires Valid(q4Bytes) && p in order
      modifies this
      ensures Valid(q4Bytes) && p < |pageState|
      ensures order == RemoveAt(old(order), IndexOf(old(order), p)) && importance == old(importance)
      ensures pageState == old(pageState)[p := Cold(slot)] && f32Pages == old(f32Pages)[p := None]
      ensures kQ4Pages == old(kQ4Pages)[p := None] && vQ4Pages == old(vQ4Pages)[p := None]
    {
      ghost var i := IndexOf(order, p);
      forall x ensures x in RemoveAt(order, i) <==> x in order && x != p {
        RemoveAtMembers(order, i, x);
      }
      pageState := pageState[p := Cold(slot)];
      hotCount := hotCount - 1;
      Unlink(p);
      kQ4Pages := kQ4Pages[p := None];
      vQ4Pages := vQ4Pages[p := None];
      f32Pages := f32Pages[p := None];
    }

    /** A cold page comes back with the bytes read for it, most recently used. */
    method Reload(p: nat, k: seq<Byte>, v: seq<Byte>)
      requires Valid(|k|) && |k| == |v| && p < |pageState| && pageState[p].Cold?
      modifies this
      ensures Valid(|k|)
      ensures order == [p] + old(order) && importance == old(importance)
      ensures pageState == old(pageState)[p := Hot] && f32Pages == old(f32Pages)
      ensures kQ4Pages == old(kQ4Pages)[p := Some(k)] && vQ4Pages == old(vQ4Pages)[p := Some(v)]
    {
      kQ4Pages := kQ4Pages[p := Some(k)];
      vQ4Pages := vQ4Pages[p := Some(v)];
      pageState := pageState[p := Hot];
      hotCount := hotCount + 1;
      Unlinked(p);
      LinkFront(p);
      assert forall x :: x in order <==> x == p || x in old(order);
    }

    /** Clear the links of a page that is off the list. */
    method Unlinked(p: nat)
      requires LruOk() && p < |lruPrev| && p !in order
      modifies this`lruPrev
      ensures LruOk() && |lruPrev| == old(|lruPrev|) && lruPrev[p] == None
    {
      LinkedElsewhere(order, lruPrev, lruNext, lruHead, lruTail, p, None, lruNext[p]);
      lruPrev := lruPrev[p := None];
      assert lruNext == lruNext[p := lruNext[p]];
    }

    /** Touch, with everything else about the zone. */
    method TouchPage(p: nat, ghost q4Bytes: nat)
      requires Valid(q4Bytes) && p in order
      modifies this`lruPrev, this`lruNext, this`lruHead, this`lruTail, this`order
      ensures Valid(q4Bytes) && order == [p] + RemoveAt(old(order), IndexOf(old(order), p))
    {
      ghost var i := IndexOf(order, p);
      forall x ensures x in [p] + RemoveAt(order, i) <==> x in order {
        RemoveAtMembers(order, i, x);
      }
      Touch(p);
    }

    /** Copies for a hot page. */
    method PutCopies(p: nat, copies: Copies, ghost q4Bytes: nat)
      requires Valid(q4Bytes) && p in order
      modifies this`f32Pages
      ensures Valid(q4Bytes) && p < |f32Pages| && f32Pages == old(f32Pages)[p := Some(copies)]
    {
      f32Pages := f32Pages[p := Some(copies)];
    }

    /** Other bytes for a hot page. */
    method WritePage(p: nat, k: seq<Byte>, v: seq<Byte>)
      requires Valid(|k|) && |k| == |v| && p in order
      modifies this`kQ4Pages, this`vQ4Pages
      ensures Valid(|k|) && kQ4Pages == old(kQ4Pages)[p := Some(k)] && vQ4Pages == old(vQ4Pages)[p := Some(v)]
    {
      kQ4Pages := kQ4Pages[p := Some(k)];
      vQ4Pages := vQ4Pages[p := Some(v)];
    }

    method RecordImportance(p: nat, weight: real, ghost q4Bytes: nat)
      requires Valid(q4Bytes)
      modifies this`importance
      ensures Valid(q4Bytes) && View() == L.Record(old(View()), p, weight)
    {
      if p < |importance| {
        importance := importance[p := importance[p] + weight];
      }
    }

    /** The loop over the zone's scores. */
    method ResetEntropy(ghost q4Bytes: nat)
      requires Valid(q4Bytes)
      modifies this`importance
      ensures Valid(q4Bytes) && View() == L.Forget(old(View()))
    {
      for i := 0 to |importance|
        invariant |importance| == old(|importance|) && Valid(q4Bytes)
        invariant forall j :: 0 <= j < i ==> importance[j] == 0.0
      {
        importance := importance[i := 0.0];
      }
      assert importance == seq(|importance|, _ => 0.0);
    }
  }
}
