// The Q4_K weight format: 256 weights in 144 bytes. Both numbers are written out, because the
// solver multiplies by literals only.
module Q4K {
  import opened Common
  import opened MixedRadix

  /** The float operations, uninterpreted; `half` reads a little-endian f16. */
  datatype Ops<!F> = Ops(zero: F, add: (F, F) -> F, sub: (F, F) -> F, mul: (F, F) -> F, ofNat: nat -> F,
                         half: (Byte, Byte) -> F)

  // ----- 6-bit scales and minima -----

  /** Sub-block j's scale. The shifted parts share no bit, so their or is a sum. */
  function ScaleOf(sc: seq<Byte>, j: nat): (r: Byte)
    requires |sc| == 12 && j < 8
    ensures r < 64
  {
    if j < 4 then sc[j] % 64 else sc[j + 4] % 16 + sc[j - 4] / 64 * 16
  }

  function MinOf(sc: seq<Byte>, j: nat): (r: Byte)
    requires |sc| == 12 && j < 8
    ensures r < 64
  {
    if j < 4 then sc[j + 4] % 64 else sc[j + 4] / 16 + sc[j] / 64 * 16
  }

  /** Which bits of the 12 bytes a scale and a minimum are made of: the first four are the low six
      bits of a byte each; the others have their low four bits in a byte they share, and their top
      two bits at the top of the bytes that hold the first four. */
  lemma ScaleBits(sc: seq<Byte>, j: nat, i: nat)
    requires |sc| == 12 && j < 8 && i < 6
    ensures Bit(ScaleOf(sc, j), i) <==>
        if j < 4 then Bit(sc[j], i) else if i < 4 then Bit(sc[j + 4], i) else Bit(sc[j - 4], i + 2)
    ensures Bit(MinOf(sc, j), i) <==>
        if j < 4 then Bit(sc[j + 4], i) else if i < 4 then Bit(sc[j + 4], i + 4) else Bit(sc[j], i + 2)
  {
    if j < 4 {
      LowBits(sc[j], i);
      LowBits(sc[j + 4], i);
    } else {
      JoinedBits(sc[j + 4] % 16, sc[j - 4] / 64, i);
      JoinedBits(sc[j + 4] / 16, sc[j] / 64, i);
      LowBits(sc[j + 4], i);
      if i >= 4 {
        LowBits(sc[j - 4], i - 4);
        LowBits(sc[j], i - 4);
      }
    }
  }

  /** `unpack_scales` and `unpack_scales_q4k`. */
  method Unpack(sc: seq<Byte>) returns (scales: seq<Byte>, mins: seq<Byte>)
    requires |sc| == 12
    ensures |scales| == |mins| == 8
    ensures forall j :: 0 <= j < 8 ==> scales[j] == ScaleOf(sc, j) && mins[j] == MinOf(sc, j)
  {
    scales, mins := seq(8, _ => 0), seq(8, _ => 0);
    for j := 0 to 4
      invariant |scales| == |mins| == 8
      invariant forall i :: 0 <= i < j ==> scales[i] == ScaleOf(sc, i) && mins[i] == MinOf(sc, i)
    {
      scales, mins := scales[j := sc[j] % 64], mins[j := sc[j + 4] % 64];
    }
    for j := 4 to 8
      invariant |scales| == |mins| == 8
      invariant forall i :: 0 <= i < j ==> scales[i] == ScaleOf(sc, i) && mins[i] == MinOf(sc, i)
    {
      scales := scales[j := sc[j + 4] % 16 + sc[j - 4] / 64 * 16];
      mins := mins[j := sc[j + 4] / 16 + sc[j] / 64 * 16];
    }
  }

  /** `pack_scales`; a shifted byte loses its top bits. */
  function Packed(scales: seq<Byte>, mins: seq<Byte>): (sc: seq<Byte>)
    requires |scales| == |mins| == 8
    ensures |sc| == 12
  {
    seq(12, k requires 0 <= k < 12 =>
      if k < 4 then scales[k] % 64 + scales[k + 4] / 16 % 4 * 64
      else if k < 8 then mins[k - 4] % 64 + mins[k] / 16 % 4 * 64
      else scales[k - 4] % 16 + mins[k - 4] % 16 * 16)
  }

  method Pack(scales: seq<Byte>, mins: seq<Byte>) returns (sc: seq<Byte>)
    requires |scales| == |mins| == 8
    ensures sc == Packed(scales, mins)
  {
    sc := seq(12, _ => 0);
    for j := 0 to 4
      invariant |sc| == 12 && forall k :: 0 <= k < j || 4 <= k < 4 + j ==> sc[k] == Packed(scales, mins)[k]
    {
      sc := sc[j := scales[j] % 64 + scales[j + 4] / 16 % 4 * 64];
      sc := sc[j + 4 := mins[j] % 64 + mins[j + 4] / 16 % 4 * 64];
    }
    for j := 0 to 4
      invariant |sc| == 12 && forall k :: 0 <= k < 8 + j ==> sc[k] == Packed(scales, mins)[k]
    {
      sc := sc[8 + j := scales[j + 4] % 16 + mins[j + 4] % 16 * 16];
    }
  }

  /** A 6-bit value is put together from its low nibble and its two top bits. */
  lemma SixBits(b: Byte, low: nat, high: nat)
    requires low < 16 && high < 4
    ensures b % 16 + b / 16 % 4 * 16 == b % 64
    ensures (low + high * 16) / 16 % 4 == high && (low + high * 16) % 16 == low
  {
  }

  lemma SplitByte(low: nat, high: nat)
    requires low < 64 && high < 4
    ensures (low + high * 64) % 64 == low && (low + high * 64) / 64 == high
  {
  }

  /** Unpacking packed scales gives them back modulo 64: exactly, when they have 6 bits. */
  lemma UnpackPacked(scales: seq<Byte>, mins: seq<Byte>, j: nat)
    requires |scales| == |mins| == 8 && j < 8
    ensures ScaleOf(Packed(scales, mins), j) == scales[j] % 64 && MinOf(Packed(scales, mins), j) == mins[j] % 64
  {
    var sc, k := Packed(scales, mins), if j < 4 then j else j - 4;
    SixBits(scales[j], mins[j] % 16, 0);
    SixBits(mins[j], scales[j] % 16, 0);
    SplitByte(scales[k] % 64, scales[k + 4] / 16 % 4);
    SplitByte(mins[k] % 64, mins[k + 4] / 16 % 4);
    assert sc[k + 8] == scales[k + 4] % 16 + mins[k + 4] % 16 * 16;
    assert sc[k + 8] % 16 == scales[k + 4] % 16 && sc[k + 8] / 16 == mins[k + 4] % 16;
  }

  /** Packing loses nothing exactly when all scales and minima have 6 bits. */
  lemma SixBitScalesSurvive(scales: seq<Byte>, mins: seq<Byte>)
    requires |scales| == |mins| == 8
    ensures (forall j :: 0 <= j < 8 ==>
             ScaleOf(Packed(scales, mins), j) == scales[j] && MinOf(Packed(scales, mins), j) == mins[j])
       <==> (forall j :: 0 <= j < 8 ==> scales[j] < 64 && mins[j] < 64)
  {
    forall j | 0 <= j < 8
      ensures ScaleOf(Packed(scales, mins), j) == scales[j] && MinOf(Packed(scales, mins), j) == mins[j]
         <==> scales[j] < 64 && mins[j] < 64
    {
      UnpackPacked(scales, mins, j);
      SixBitsOnly(scales[j]);
      SixBitsOnly(mins[j]);
    }
  }

  lemma SixBitsOnly(b: Byte)
    ensures b % 64 == b <==> b < 64
  {
  }

  /** Every 12 bytes are the packing of what they unpack to. */
  lemma PackUnpacked(sc: seq<Byte>, scales: seq<Byte>, mins: seq<Byte>)
    requires |sc| == 12 && |scales| == |mins| == 8
    requires forall j :: 0 <= j < 8 ==> scales[j] == ScaleOf(sc, j) && mins[j] == MinOf(sc, j)
    ensures Packed(scales, mins) == sc
  {
    forall k | 0 <= k < 12
      ensures Packed(scales, mins)[k] == sc[k]
    {
      PackedAt(sc, scales, mins, if k < 4 then k else if k < 8 then k - 4 else k - 8);
    }
  }

  lemma PackedAt(sc: seq<Byte>, scales: seq<Byte>, mins: seq<Byte>, j: nat)
    requires |sc| == 12 && |scales| == |mins| == 8 && j < 4
    requires scales[j] == ScaleOf(sc, j) && mins[j] == MinOf(sc, j)
    requires scales[j + 4] == ScaleOf(sc, j + 4) && mins[j + 4] == MinOf(sc, j + 4)
    ensures Packed(scales, mins)[j] == sc[j] && Packed(scales, mins)[j + 4] == sc[j + 4] &&
        Packed(scales, mins)[j + 8] == sc[j + 8]
  {
    PackedColumn(sc[j], sc[j + 4], sc[j + 8], scales[j], scales[j + 4], mins[j], mins[j + 4]);
  }

  lemma PackedColumn(a: Byte, b: Byte, c: Byte, s: nat, t: nat, m: nat, n: nat)
    requires s == a % 64 && m == b % 64 && t == c % 16 + a / 64 * 16 && n == c / 16 + b / 64 * 16
    ensures s % 64 + t / 16 % 4 * 64 == a && m % 64 + n / 16 % 4 * 64 == b && t % 16 + n % 16 * 16 == c
  {
    SixBits(a, c % 16, a / 64);
    SixBits(b, c / 16, b / 64);
  }

  // ----- weights -----

  /** Weight e of the block that starts at `base`: sub-block e / 32, low nibbles in even ones. */
  function Weight<F>(ops: Ops<F>, raw: seq<Byte>, base: nat, e: nat): F
    requires base + 144 <= |raw| && e < 256
  {
    var sc := raw[base + 4..base + 16];
    var sb, q := e / 32, raw[base + 16 + e / 64 * 32 + e % 32];
    var nib := if sb % 2 == 0 then q % 16 else q / 16;
    ops.sub(ops.mul(ops.mul(ops.half(raw[base], raw[base + 1]), ops.ofNat(ScaleOf(sc, sb) % 64)), ops.ofNat(nib)),
            ops.mul(ops.half(raw[base + 2], raw[base + 3]), ops.ofNat(MinOf(sc, sb) % 64)))
  }

  /** Sub-block sb's scale and minimum. */
  ghost predicate IsScaleAndMin<F>(ops: Ops<F>, raw: seq<Byte>, base: nat, sb: nat, scale: F, min: F)
    requires base + 144 <= |raw| && sb < 8
  {
    && scale == ops.mul(ops.half(raw[base], raw[base + 1]), ops.ofNat(ScaleOf(raw[base + 4..base + 16], sb) % 64))
    && min == ops.mul(ops.half(raw[base + 2], raw[base + 3]), ops.ofNat(MinOf(raw[base + 4..base + 16], sb) % 64))
  }

  lemma SubBlockWeight<F>(ops: Ops<F>, raw: seq<Byte>, base: nat, sb: nat, i: nat, scale: F, min: F, nib: nat)
    requires base + 144 <= |raw| && sb < 8 && i < 32 && IsScaleAndMin(ops, raw, base, sb, scale, min)
    requires
      var q := raw[base + 16 + sb / 2 * 32 + i];
      nib == if sb % 2 == 0 then q % 16 else q / 16
    ensures Weight(ops, raw, base, sb * 32 + i) == ops.sub(ops.mul(scale, ops.ofNat(nib)), min)
  {
    var e := sb * 32 + i;
    assert e / 32 == sb && e / 64 == sb / 2 && e % 32 == i;
  }

  /** Weight g of consecutive blocks. */
  function WeightAt<F>(ops: Ops<F>, raw: seq<Byte>, g: nat): F
    requires (g / 256 + 1) * 144 <= |raw|
  {
    Weight(ops, raw, g / 256 * 144, g % 256)
  }

  /** As many blocks as n weights take, the last of them perhaps in part. */
  function BlocksFor(n: nat): (b: nat)
    ensures 256 * b - 256 < n <= 256 * b || n == b == 0
  {
    (n + 255) / 256
  }

  /** Sub-block sb of a block, as far as the destination goes. */
  method DequantSubBlock<F>(ops: Ops<F>, raw: seq<Byte>, base: nat, sb: nat, scale: F, min: F, start: nat,
                            dst: array<F>)
    requires base + 144 <= |raw| && sb < 8 && IsScaleAndMin(ops, raw, base, sb, scale, min)
    modifies dst
    ensures forall e :: sb * 32 <= e < sb * 32 + 32 && start + e < dst.Length ==>
        dst[start + e] == Weight(ops, raw, base, e)
    ensures forall g :: 0 <= g < dst.Length && !(start + sb * 32 <= g < start + sb * 32 + 32) ==> dst[g] == old(dst[g])
  {
    for i := 0 to 32
      invariant forall e {:trigger Weight(ops, raw, base, e)} ::
                  sb * 32 <= e < sb * 32 + i && start + e < dst.Length ==> dst[start + e] == Weight(ops, raw, base, e)
      invariant forall g :: 0 <= g < dst.Length && !(start + sb * 32 <= g < start + sb * 32 + i) ==>
          dst[g] == old(dst[g])
    {
      var e := sb * 32 + i;
      if start + e < dst.Length {
        var q := raw[base + 16 + sb / 2 * 32 + i];
        var nib := if sb % 2 == 0 then q % 16 else q / 16;
        SubBlockWeight(ops, raw, base, sb, i, scale, min, nib);
        dst[start + e] := ops.sub(ops.mul(scale, ops.ofNat(nib)), min);
      }
    }
  }

  /** One block of the destination, pair by pair. */
  method DequantBlock<F>(ops: Ops<F>, raw: seq<Byte>, base: nat, start: nat, dst: array<F>)
    requires base + 144 <= |raw|
    modifies dst
    ensures forall e {:trigger Weight(ops, raw, base, e)} :: 0 <= e < 256 && start + e < dst.Length ==>
        dst[start + e] == Weight(ops, raw, base, e)
    ensures forall g :: 0 <= g < dst.Length && !(start <= g < start + 256) ==> dst[g] == old(dst[g])
  {
    var d, dmin := ops.half(raw[base], raw[base + 1]), ops.half(raw[base + 2], raw[base + 3]);
    var scales, mins := Unpack(raw[base + 4..base + 16]);
    for pair := 0 to 4
      invariant forall e {:trigger Weight(ops, raw, base, e)} :: 0 <= e < pair * 64 && start + e < dst.Length ==>
          dst[start + e] == Weight(ops, raw, base, e)
      invariant forall g :: 0 <= g < dst.Length && !(start <= g < start + pair * 64) ==> dst[g] == old(dst[g])
    {
      var sb := pair * 2;
      DequantSubBlock(ops, raw, base, sb, ops.mul(d, ops.ofNat(scales[sb] % 64)),
                      ops.mul(dmin, ops.ofNat(mins[sb] % 64)), start, dst);
      DequantSubBlock(ops, raw, base, sb + 1, ops.mul(d, ops.ofNat(scales[sb + 1] % 64)),
                      ops.mul(dmin, ops.ofNat(mins[sb + 1] % 64)), start, dst);
    }
  }

  /** Weight g of the blocks, when they reach that far. */
  ghost predicate HasWeight<F>(ops: Ops<F>, raw: seq<Byte>, g: nat, w: F)
  {
    (g / 256 + 1) * 144 <= |raw| && w == WeightAt(ops, raw, g)
  }

  lemma WeightInBlock<F>(ops: Ops<F>, raw: seq<Byte>, b: nat, e: nat, w: F)
    requires (b + 1) * 144 <= |raw| && e < 256 && w == Weight(ops, raw, b * 144, e)
    ensures HasWeight(ops, raw, b * 256 + e, w)
  {
    assert (b * 256 + e) / 256 == b && (b * 256 + e) % 256 == e;
  }

  method DequantNext<F>(ops: Ops<F>, raw: seq<Byte>, b: nat, dst: array<F>)
    requires (b + 1) * 144 <= |raw|
    modifies dst
    ensures forall g :: b * 256 <= g < dst.Length && g < (b + 1) * 256 ==> HasWeight(ops, raw, g, dst[g])
    ensures forall g :: 0 <= g < dst.Length && !(b * 256 <= g < (b + 1) * 256) ==> dst[g] == old(dst[g])
  {
    DequantBlock(ops, raw, b * 144, b * 256, dst);
    forall g | b * 256 <= g < dst.Length && g < (b + 1) * 256
      ensures HasWeight(ops, raw, g, dst[g])
    {
      var e: nat := g - b * 256;
      assert dst[b * 256 + e] == Weight(ops, raw, b * 144, e);
      WeightInBlock(ops, raw, b, e, dst[g]);
    }
  }

  /** `dequant_q4k`: every weight of the destination, or nothing when the bytes do not suffice. */
  method Dequant<F>(ops: Ops<F>, raw: seq<Byte>, dst: array<F>) returns (ok: bool)
    modifies dst
    ensures ok <==> |raw| >= BlocksFor(dst.Length) * 144
    ensures ok ==> forall g :: 0 <= g < dst.Length ==> HasWeight(ops, raw, g, dst[g])
    ensures !ok ==> dst[..] == old(dst[..])
  {
    var blocks := BlocksFor(dst.Length);
    ok := |raw| >= blocks * 144;
    if !ok { return; }
    for b := 0 to blocks
      invariant forall g :: 0 <= g < dst.Length && g < b * 256 ==> HasWeight(ops, raw, g, dst[g])
    {
      DequantNext(ops, raw, b, dst);
    }
  }
}
