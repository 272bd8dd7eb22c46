// The pre-allocated cold file: byte ranges of slots, and which slot an eviction takes.
module ColdStore {
  import opened Common
  import opened CacheZones

  /** Bytes at..at + n of the file; nothing past its end. */
  function ReadAt(file: seq<Byte>, at: nat, n: nat): (r: seq<Byte>)
    ensures at + n <= |file| ==> |r| == n
  {
    if at + n <= |file| then seq(n, i requires 0 <= i < n => file[at + i]) else []
  }

  function WriteAt(file: seq<Byte>, at: nat, data: seq<Byte>): (r: seq<Byte>)
    ensures |r| == |file|
  {
    if at + |data| <= |file|
    then seq(|file|, i requires 0 <= i < |file| => if at <= i < at + |data| then data[i - at] else file[i])
    else file
  }

  predicate Disjoint(a: nat, n: nat, b: nat, m: nat)
  {
    n == 0 || m == 0 || a + n <= b || b + m <= a
  }

  /** Where zone-sized pages put a slot: K and V bytes back to back, slot after slot.
      Written as a sum to keep products away from the solver; SlotStartIs gives the product. */
  function SlotStart(slot: nat, q4Bytes: nat): nat
  {
    if slot == 0 then 0 else SlotStart(slot - 1, q4Bytes) + q4Bytes * 2
  }

  lemma {:induction false} SlotStartIs(slot: nat, q4Bytes: nat)
    ensures SlotStart(slot, q4Bytes) == slot * (q4Bytes * 2)
  {
    if slot > 0 {
      SlotStartIs(slot - 1, q4Bytes);
      assert slot * (q4Bytes * 2) == (slot - 1) * (q4Bytes * 2) + q4Bytes * 2;
    }
  }

  predicate SlotsDisjoint(s: nat, q: nat, t: nat, r: nat)
  {
    Disjoint(SlotStart(s, q), q * 2, SlotStart(t, r), r * 2)
  }

  lemma ReadWritten(file: seq<Byte>, at: nat, k: seq<Byte>, v: seq<Byte>)
    requires at + |k| + |v| <= |file|
    ensures ReadAt(WriteAt(file, at, k + v), at, |k|) == k
    ensures ReadAt(WriteAt(file, at, k + v), at + |k|, |v|) == v
  {
  }

  lemma ReadElsewhere(file: seq<Byte>, at: nat, data: seq<Byte>, b: nat, m: nat)
    requires Disjoint(at, |data|, b, m)
    ensures ReadAt(WriteAt(file, at, data), b, m) == ReadAt(file, b, m)
  {
  }

  /** Writing one range keeps another for all contents exactly when the two do not meet. */
  lemma WriteKeepsExact(size: nat, at: nat, n: nat, b: nat, m: nat)
    requires at + n <= size && b + m <= size
    ensures (forall file: seq<Byte>, data: seq<Byte> :: |file| == size && |data| == n
               ==> ReadAt(WriteAt(file, at, data), b, m) == ReadAt(file, b, m))
       <==> Disjoint(at, n, b, m)
  {
    if Disjoint(at, n, b, m) {
      forall file: seq<Byte>, data: seq<Byte> | |file| == size && |data| == n
        ensures ReadAt(WriteAt(file, at, data), b, m) == ReadAt(file, b, m)
      {
        ReadElsewhere(file, at, data, b, m);
      }
    } else {
      var file: seq<Byte>, data: seq<Byte> := seq(size, _ => 0), seq(n, _ => 1);
      var i := Max(at, b);
      assert ReadAt(WriteAt(file, at, data), b, m)[i - b] == 1;
      assert ReadAt(file, b, m)[i - b] == 0;
    }
  }

  lemma {:induction false} SlotsInOrder(s: nat, t: nat, q: nat)
    requires s < t
    ensures SlotStart(s, q) + q * 2 <= SlotStart(t, q)
    decreases t
  {
    if s < t - 1 {
      SlotsInOrder(s, t - 1, q);
    }
  }

  lemma SameZoneDisjoint(s: nat, t: nat, q: nat)
    requires s != t
    ensures SlotsDisjoint(s, q, t, q)
  {
    SlotsInOrder(Min(s, t), Max(s, t), q);
  }

  lemma {:induction false} SlotStartGrows(slot: nat, q: nat, largest: nat)
    requires q <= largest
    ensures SlotStart(slot, q) <= SlotStart(slot, largest)
  {
    if slot > 0 {
      SlotStartGrows(slot - 1, q, largest);
    }
  }

  /** The file, sized for the largest page, holds every slot of every zone. */
  lemma SlotFits(slot: nat, capacity: nat, q: nat, largest: nat)
    requires slot < capacity && q <= largest
    ensures SlotStart(slot, q) + q * 2 <= SlotStart(capacity, largest)
  {
    SlotsInOrder(slot, capacity, q);
    SlotStartGrows(capacity, q, largest);
  }

  lemma {:induction false} SlotStartJoins(k: nat, n: nat, q: nat)
    ensures SlotStart(k + n, q) == SlotStart(k, q) + SlotStart(n, q)
  {
    if n > 0 {
      SlotStartJoins(k, n - 1, q);
    }
  }

  /** Slot s of m times as large pages starts where slot m * s of the small ones does. */
  lemma {:induction false} LargeSlotStart(s: nat, m: nat, q: nat, large: nat)
    requires large * 2 == SlotStart(m, q)
    ensures SlotStart(s, large) == SlotStart(m * s, q)
  {
    if s > 0 {
      LargeSlotStart(s - 1, m, q, large);
      assert m * s == m * (s - 1) + m;
      SlotStartJoins(m * (s - 1), m, q);
    }
  }

  /** Slots of zones with different page sizes meet: where one zone's pages are m times as large
      as another's, its slot s covers exactly the other's slots m * s to m * s + m - 1. */
  lemma ZonesClashExact(q: nat, m: nat, s: nat, t: nat)
    requires q > 0 && m > 0
    ensures SlotsDisjoint(s, m * q, t, q) <==> !(m * s <= t < m * s + m)
  {
    SlotStartIs(m, q);
    assert m * q > 0 && m * q * 2 == m * (q * 2);
    LargeSlotStart(s, m, q, m * q);
    SlotsMeet(q, m * q, m * s, m, SlotStart(m * s, q), t);
  }

  /** A range of n small slots meets one of them or none. */
  lemma SlotsMeet(q: nat, large: nat, first: nat, n: nat, start: nat, t: nat)
    requires q > 0 && n > 0 && large > 0 && large * 2 == SlotStart(n, q) && start == SlotStart(first, q)
    ensures Disjoint(start, large * 2, SlotStart(t, q), q * 2) <==> !(first <= t < first + n)
  {
    SlotStartJoins(first, n, q);
    if t < first {
      SlotsInOrder(t, first, q);
    } else if t >= first + n {
      if t > first + n {
        SlotsInOrder(first + n, t, q);
      }
    } else {
      SlotsInOrder(t, first + n, q);
      if first < t {
        SlotsInOrder(first, t, q);
      }
    }
  }

  /** The i-th slot going round from the cursor. */
  function Round(cursor: nat, i: nat, n: nat): (s: nat)
    requires cursor < n
    ensures s < n
  {
    (cursor + i) % n
  }

  /** Going round takes the slots one after the other from the cursor, and the first after the last. */
  lemma RoundSteps(cursor: nat, i: nat, n: nat)
    requires cursor < n && i < n
    ensures Round(cursor, 0, n) == cursor
    ensures Round(cursor, i + 1, n) == if Round(cursor, i, n) == n - 1 then 0 else Round(cursor, i, n) + 1
  {
    Remainder(cursor, n);
    Remainder(cursor + i, n);
    Remainder(cursor + i + 1, n);
  }

  lemma RoundReaches(cursor: nat, s: nat, n: nat) returns (i: nat)
    requires cursor < n && s < n
    ensures i < n && Round(cursor, i, n) == s
  {
    i := if s >= cursor then s - cursor else s - cursor + n;
  }

  /** The first unused slot going round from the cursor; the cursor itself when all are used. */
  ghost predicate IsChosen(used: seq<bool>, cursor: nat, slot: nat)
    requires cursor < |used|
  {
    if exists s :: 0 <= s < |used| && !used[s] then
      exists i: nat ::
        && i < |used|
        && slot == Round(cursor, i, |used|)
        && !used[slot]
        && forall j: nat :: j < i ==> used[Round(cursor, j, |used|)]
    else slot == cursor
  }

  /** The slot an eviction takes, found going round from the i-th on. */
  function ChosenFrom(used: seq<bool>, cursor: nat, i: nat): (slot: nat)
    requires cursor < |used| && i <= |used|
    ensures slot < |used|
    ensures used[slot] ==> slot == cursor && forall j :: i <= j < |used| ==> used[Round(cursor, j, |used|)]
    decreases |used| - i
  {
    if i == |used| then cursor
    else if !used[Round(cursor, i, |used|)] then Round(cursor, i, |used|)
    else ChosenFrom(used, cursor, i + 1)
  }

  function Chosen(used: seq<bool>, cursor: nat): (slot: nat)
    requires cursor < |used|
    ensures slot < |used|
  {
    ChosenFrom(used, cursor, 0)
  }

  lemma {:induction false} ChosenFromIs(used: seq<bool>, cursor: nat, i: nat)
    requires cursor < |used| && i <= |used| && forall j :: 0 <= j < i ==> used[Round(cursor, j, |used|)]
    ensures IsChosen(used, cursor, ChosenFrom(used, cursor, i))
    decreases |used| - i
  {
    if i == |used| {
      AllGoneRound(used, cursor);
    } else if used[Round(cursor, i, |used|)] {
      ChosenFromIs(used, cursor, i + 1);
    }
  }

  lemma AllGoneRound(used: seq<bool>, cursor: nat)
    requires cursor < |used| && forall j :: 0 <= j < |used| ==> used[Round(cursor, j, |used|)]
    ensures forall s :: 0 <= s < |used| ==> used[s]
  {
    forall s | 0 <= s < |used|
      ensures used[s]
    {
      var j := RoundReaches(cursor, s, |used|);
    }
  }

  /** It is the first unused slot going round, and a used one exactly when all are used. */
  lemma ChosenIs(used: seq<bool>, cursor: nat)
    requires cursor < |used|
    ensures IsChosen(used, cursor, Chosen(used, cursor))
    ensures used[Chosen(used, cursor)] <==> forall s :: 0 <= s < |used| ==> used[s]
  {
    ChosenFromIs(used, cursor, 0);
    if used[Chosen(used, cursor)] {
      AllGoneRound(used, cursor);
    }
  }

  /** The eviction's search: `find` over the slots going round, the cursor's own if none is free. */
  method ChooseSlot(used: seq<bool>, cursor: nat) returns (slot: nat)
    requires cursor < |used|
    ensures slot == Chosen(used, cursor) && IsChosen(used, cursor, slot)
    ensures used[slot] <==> forall s :: 0 <= s < |used| ==> used[s]
  {
    ChosenIs(used, cursor);
    var n := |used|;
    for i := 0 to n
      invariant ChosenFrom(used, cursor, i) == Chosen(used, cursor)
    {
      slot := Round(cursor, i, n);
      if !used[slot] {
        return;
      }
    }
    slot := cursor;
  }
}
