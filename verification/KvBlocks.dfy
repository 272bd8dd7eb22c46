// Saving and reading back quantised blocks inside a page of the cache.
module KvBlocks {
  import opened Common
  import opened KvQuant

  // ----- the 20 bytes of a block -----

  /** Bitwise or. */
  function Or(a: nat, b: nat): nat
  {
    if a == 0 then b else if b == 0 then a
    else (if a % 2 == 1 || b % 2 == 1 then 1 else 0) + 2 * Or(a / 2, b / 2)
  }

  /** The bits of an or are those of either number. */
  lemma {:induction false} OrBits(a: nat, b: nat, i: nat)
    ensures Bit(Or(a, b), i) <==> Bit(a, i) || Bit(b, i)
  {
    if a == 0 || b == 0 {
      ZeroBits(i);
    } else if i > 0 {
      OrBits(a / 2, b / 2, i - 1);
    }
  }

  /** Every bit of a is one of b. */
  ghost predicate BitsWithin(a: nat, b: nat)
  {
    forall i: nat :: Bit(a, i) ==> Bit(b, i)
  }

  lemma OrIsSame(a: nat, b: nat)
    ensures Or(a, b) == b <==> BitsWithin(a, b)
  {
    forall i: nat
      ensures Bit(Or(a, b), i) <==> Bit(a, i) || Bit(b, i)
    {
      OrBits(a, b, i);
    }
    if BitsWithin(a, b) {
      BitsDetermine(Or(a, b), b);
    }
  }

  lemma {:induction false} OrBelow(a: nat, b: nat, k: nat)
    requires a < Power(k) && b < Power(k)
    ensures Or(a, b) < Power(k)
  {
    if a != 0 && b != 0 {
      OrBelow(a / 2, b / 2, k - 1);
    }
  }

  function Nibble(b: Byte, i: nat): (q: nat)
    ensures q < 16
  {
    if i % 2 == 0 then b % 16 else b / 16
  }

  /** The byte with q or-ed into its low nibble, for even i, or its high one. */
  function WithNibble(b: Byte, i: nat, q: nat): (r: Byte)
    requires q < 16
  {
    OrBelow(Nibble(b, i), q, 4);
    assert Power(4) == 16;
    if i % 2 == 0 then b / 16 * 16 + Or(b % 16, q) else Or(b / 16, q) * 16 + b % 16
  }

  lemma WithNibbleAt(b: Byte, i: nat, q: nat)
    requires q < 16
    ensures Nibble(WithNibble(b, i, q), i) == Or(Nibble(b, i), q)
    ensures Nibble(WithNibble(b, i, q), i + 1) == Nibble(b, i + 1)
  {
    var n := Or(Nibble(b, i), q);
    assert n < 16 by {
      OrBelow(Nibble(b, i), q, 4);
      assert Power(4) == 16;
    }
    if i % 2 == 0 {
      ByteParts(b / 16, n);
    } else {
      ByteParts(n, b % 16);
    }
  }

  lemma ByteParts(high: nat, low: nat)
    requires low < 16
    ensures (high * 16 + low) / 16 == high && (high * 16 + low) % 16 == low
  {
  }

  /** A 16-byte nibble area, after the first n levels are or-ed in. */
  function NibblesUpto(was: seq<Byte>, levels: seq<nat>, n: nat): (r: seq<Byte>)
    requires |was| == 16 && n <= |levels| <= 32 && forall i :: 0 <= i < |levels| ==> levels[i] < 16
    ensures |r| == 16
  {
    if n == 0 then was
    else
      var before := NibblesUpto(was, levels, n - 1);
      before[(n - 1) / 2 := WithNibble(before[(n - 1) / 2], n - 1, levels[n - 1])]
  }

  function NibbleAt(area: seq<Byte>, i: nat): (q: nat)
    requires |area| == 16 && i < 32
    ensures q < 16
  {
    Nibble(area[i / 2], i)
  }

  /** One nibble is or-ed with a level, the others are as they were. */
  lemma OneNibbleAt(area: seq<Byte>, j: nat, q: nat, i: nat)
    requires |area| == 16 && j < 32 && q < 16 && i < 32
    ensures NibbleAt(area[j / 2 := WithNibble(area[j / 2], j, q)], i)
         == if i == j then Or(NibbleAt(area, i), q) else NibbleAt(area, i)
  {
    WithNibbleAt(area[j / 2], j, q);
  }

  /** Each of the first n nibbles is or-ed with its level, the others are as they were. */
  lemma {:induction false} NibblesUptoAt(was: seq<Byte>, levels: seq<nat>, n: nat, i: nat)
    requires |was| == 16 && n <= |levels| <= 32 && i < 32
    requires forall k :: 0 <= k < |levels| ==> levels[k] < 16
    ensures NibbleAt(NibblesUpto(was, levels, n), i)
         == if i < n then Or(NibbleAt(was, i), levels[i]) else NibbleAt(was, i)
  {
    if n > 0 {
      NibblesUptoAt(was, levels, n - 1, i);
      OneNibbleAt(NibblesUpto(was, levels, n - 1), n - 1, levels[n - 1], i);
    }
  }

  /** One block: scale and least element as f16, then 32 nibbles. */
  datatype Block = Block(d: (Byte, Byte), dmin: (Byte, Byte), nibbles: seq<Byte>)

  function Quantised(was: seq<Byte>, src: seq<F32>, half: Half): (r: Block)
    requires |was| == 16 && |src| <= 32
    ensures |r.nibbles| == 16
  {
    Block(half.encode(Scale(src)), half.encode(Least(src)), NibblesUpto(was, Levels(src), |src|))
  }

  function Dequantised(b: Block, half: Half, i: nat): real
    requires |b.nibbles| == 16 && i < 32
  {
    Steps(half.decode(b.d.0, b.d.1), NibbleAt(b.nibbles, i)) + half.decode(b.dmin.0, b.dmin.1)
  }

  /** A slot whose nibbles are still zero, as they are in a new page. */
  ghost predicate Fresh(nibbles: seq<Byte>, n: nat)
    requires |nibbles| == 16 && n <= 32
  {
    forall i :: 0 <= i < n ==> NibbleAt(nibbles, i) == 0
  }

  /** What a saved element reads back as, whatever its nibble held before. */
  lemma SavedReads(was: seq<Byte>, src: seq<F32>, half: Half, i: nat)
    requires |was| == 16 && |src| <= 32 && i < |src|
    ensures Dequantised(Quantised(was, src, half), half, i)
         == Steps(half.Rounded(Scale(src)), Or(NibbleAt(was, i), Levels(src)[i])) + half.Rounded(Least(src))
  {
    NibblesUptoAt(was, Levels(src), |src|, i);
  }

  /** What f16 loses of a block's header: of its scale, at most 14 times over. */
  function HeaderLoss(half: Half, src: seq<F32>): real
  {
    14.0 * Abs(half.Rounded(Scale(src)) - Scale(src)) + Abs(half.Rounded(Least(src)) - Least(src))
  }

  predicate ExactHeader(half: Half, src: seq<F32>)
  {
    half.Rounded(Scale(src)) == Scale(src) && half.Rounded(Least(src)) == Least(src)
  }

  /** An error within a fourteenth of the magnitude of one of the block's own elements, or 1.4e-9,
      and what f16 loses of the header; that alone where f16 holds the header exactly. */
  ghost predicate WithinBlock(half: Half, src: seq<F32>, error: real)
  {
    exists i :: 0 <= i < |src| && error <= Tolerance(Abs(src[i])) + HeaderLoss(half, src) &&
      (ExactHeader(half, src) ==> error <= Tolerance(Abs(src[i])))
  }

  /** Round trip: on a fresh slot every element comes back within its block's bound. */
  lemma SaveThenRead(was: seq<Byte>, src: seq<F32>, half: Half, i: nat)
    requires |was| == 16 && |src| <= 32 && Fresh(was, |src|) && i < |src|
    ensures WithinBlock(half, src, Abs(Dequantised(Quantised(was, src, half), half, i) - src[i]))
  {
    FreshReads(was, src, half, i);
    LevelWithin(src, half, i);
    ExactLosesNothing(half, src);
    MaxAbsAttained(src);
  }

  lemma FreshReads(was: seq<Byte>, src: seq<F32>, half: Half, i: nat)
    requires |was| == 16 && |src| <= 32 && Fresh(was, |src|) && i < |src|
    ensures Dequantised(Quantised(was, src, half), half, i)
         == Steps(half.Rounded(Scale(src)), Levels(src)[i]) + half.Rounded(Least(src))
  {
    assert NibbleAt(was, i) == 0;
    SavedReads(was, src, half, i);
  }

  lemma LevelWithin(src: seq<F32>, half: Half, i: nat)
    requires i < |src|
    ensures Abs(Steps(half.Rounded(Scale(src)), Levels(src)[i]) + half.Rounded(Least(src)) - src[i])
         <= Tolerance(MaxAbs(src)) + HeaderLoss(half, src)
  {
    QuantError(src, i, half.Rounded(Scale(src)), half.Rounded(Least(src)));
  }

  lemma ExactLosesNothing(half: Half, src: seq<F32>)
    ensures ExactHeader(half, src) ==> HeaderLoss(half, src) == 0.0
  {
  }

  /** Saving over an earlier save stores the right nibbles exactly when, at every element, the
      earlier nibble's bits are among the new one's. */
  lemma ReusedSlotExact(was: seq<Byte>, src: seq<F32>, half: Half)
    requires |was| == 16 && |src| <= 32
    ensures (forall i :: 0 <= i < |src| ==> NibbleAt(Quantised(was, src, half).nibbles, i) == Levels(src)[i])
       <==> (forall i :: 0 <= i < |src| ==> BitsWithin(NibbleAt(was, i), Levels(src)[i]))
  {
    forall i | 0 <= i < |src|
      ensures NibbleAt(Quantised(was, src, half).nibbles, i) == Or(NibbleAt(was, i), Levels(src)[i])
      ensures Or(NibbleAt(was, i), Levels(src)[i]) == Levels(src)[i] <==>
          BitsWithin(NibbleAt(was, i), Levels(src)[i])
    {
      NibblesUptoAt(was, Levels(src), |src|, i);
      OrIsSame(NibbleAt(was, i), Levels(src)[i]);
    }
  }

  /** A concrete case: [7, -7] over [-7, 7] reads back as [7, 7], off by 14. */
  lemma ReusedSlotCorrupts(half: Half)
    requires half.Rounded(1.0) == 1.0 && half.Rounded(-7.0) == -7.0
    ensures
      var zero := seq(16, _ => 0);
      var first := Quantised(zero, [-7.0, 7.0], half);
      var second := Quantised(first.nibbles, [7.0, -7.0], half);
      Dequantised(second, half, 0) == 7.0 && Dequantised(second, half, 1) == 7.0
  {
    var a, b: seq<F32> := [-7.0, 7.0], [7.0, -7.0];
    LevelsOfPair(-7.0, 7.0);
    LevelsOfPair(7.0, -7.0);
    var zero := seq(16, _ => 0);
    var first := Quantised(zero, a, half);
    NibblesUptoAt(zero, Levels(a), 2, 0);
    NibblesUptoAt(zero, Levels(a), 2, 1);
    SavedReads(first.nibbles, b, half, 0);
    SavedReads(first.nibbles, b, half, 1);
    StepsIs(1.0, 14);
    assert Or(0, 14) == 14 && Or(14, 0) == 14;
  }

  lemma LevelsOfPair(x: F32, y: F32)
    requires (x == -7.0 && y == 7.0) || (x == 7.0 && y == -7.0)
    ensures Scale([x, y]) == 1.0 && Least([x, y]) == -7.0
    ensures Levels([x, y]) == if x < y then [0, 14] else [14, 0]
  {
    var s: seq<F32> := [x, y];
    assert s[..1] == [x] && [x][..0] == [];
    assert MaxAbs([x]) == 7.0 && Least([x]) == x;
    assert MaxAbs(s) == 7.0 && Least(s) == -7.0;
    assert Quant(-7.0, 1.0, -7.0) == 0 && Quant(7.0, 1.0, -7.0) == 14;
  }
}
