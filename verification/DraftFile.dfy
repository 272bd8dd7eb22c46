// The pattern draft's file: written and read back byte by byte.
module DraftFile {
  import opened Common

  /** What is saved; floats by their 32 bits. */
  datatype Saved = Saved(embedDim: nat, numBits: nat, capacity: nat, draftLength: nat, head: nat, len: nat,
                         planes: seq<seq<nat>>, hashes: seq<nat>, tokens: seq<nat>, positions: seq<nat>)

  // ----- little-endian numbers -----

  function Power256(w: nat): (p: nat)
    ensures p > 0
  {
    if w == 0 then 1 else 256 * Power256(w - 1)
  }

  function Bytes(x: nat, w: nat): (bs: seq<Byte>)
    ensures |bs| == w
  {
    if w == 0 then [] else [x % 256] + Bytes(x / 256, w - 1)
  }

  function Number(bs: seq<Byte>): nat
  {
    if bs == [] then 0 else bs[0] + 256 * Number(bs[1..])
  }

  /** Writing in w bytes keeps a number exactly when it fits; otherwise its low bytes. */
  lemma {:induction false} NumberOfBytes(x: nat, w: nat)
    ensures Number(Bytes(x, w)) < Power256(w)
    ensures Number(Bytes(x, w)) == x <==> x < Power256(w)
  {
    if w > 0 {
      NumberOfBytes(x / 256, w - 1);
      assert Bytes(x, w)[1..] == Bytes(x / 256, w - 1);
    }
  }

  /** Every byte string is the writing of the number it is read as. */
  lemma {:induction false} BytesOfNumber(bs: seq<Byte>)
    ensures Bytes(Number(bs), |bs|) == bs
  {
    if bs != [] {
      BytesOfNumber(bs[1..]);
      assert Number(bs) % 256 == bs[0] && Number(bs) / 256 == Number(bs[1..]);
    }
  }

  /** Four bytes are read least significant first, and eight as two such halves. */
  lemma LittleEndian(bs: seq<Byte>)
    ensures |bs| == 4 ==>
        Number(bs) == bs[0] as nat + 0x100 * (bs[1] as nat) + 0x1_0000 * (bs[2] as nat) + 0x100_0000 * (bs[3] as nat)
    ensures |bs| == 8 ==> Number(bs) == Number(bs[..4]) + 0x1_0000_0000 * Number(bs[4..])
  {
    if |bs| == 4 {
      FourBytes(bs);
    } else if |bs| == 8 {
      FourBytes(bs[..4]);
      var rest := bs[4..];
      assert bs[3..][1..] == rest && bs[2..][1..] == bs[3..] && bs[1..][1..] == bs[2..];
      assert Number(bs) == bs[0] + 256 * Number(bs[1..]);
      assert Number(bs[1..]) == bs[1] + 256 * Number(bs[2..]);
      assert Number(bs[2..]) == bs[2] + 256 * Number(bs[3..]);
      assert Number(bs[3..]) == bs[3] + 256 * Number(rest);
    }
  }

  lemma FourBytes(bs: seq<Byte>)
    requires |bs| == 4
    ensures Number(bs) ==
        bs[0] as nat + 0x100 * (bs[1] as nat) + 0x1_0000 * (bs[2] as nat) + 0x100_0000 * (bs[3] as nat)
  {
    assert bs[3..][1..] == [] && bs[2..][1..] == bs[3..] && bs[1..][1..] == bs[2..];
    assert Number(bs) == bs[0] + 256 * Number(bs[1..]);
    assert Number(bs[1..]) == bs[1] + 256 * Number(bs[2..]);
    assert Number(bs[2..]) == bs[2] + 256 * Number(bs[3..]);
    assert Number(bs[3..]) == bs[3] + 256 * Number([]);
  }

  lemma {:induction false} NumberBelow(bs: seq<Byte>)
    ensures Number(bs) < Power256(|bs|)
  {
    if bs != [] {
      NumberBelow(bs[1..]);
    }
  }

  // ----- lists of numbers -----

  function WriteAll(xs: seq<nat>, w: nat): seq<Byte>
  {
    if xs == [] then [] else Bytes(xs[0], w) + WriteAll(xs[1..], w)
  }

  /** n numbers of w bytes from the front, and what is left. */
  function ReadAll(bs: seq<Byte>, n: nat, w: nat): (r: Option<(seq<nat>, seq<Byte>)>)
    ensures r.Some? ==> |r.value.0| == n
  {
    if n == 0 then Some(([], bs))
    else if |bs| < w then None
    else
      match ReadAll(bs[w..], n - 1, w)
      case None => None
      case Some((xs, rest)) => Some(([Number(bs[..w])] + xs, rest))
  }

  ghost predicate Fit(xs: seq<nat>, w: nat)
  {
    forall i :: 0 <= i < |xs| ==> xs[i] < Power256(w)
  }

  lemma {:induction false} ReadWritten(xs: seq<nat>, w: nat, tail: seq<Byte>)
    requires Fit(xs, w)
    ensures ReadAll(WriteAll(xs, w) + tail, |xs|, w) == Some((xs, tail))
  {
    if xs == [] {
      assert WriteAll(xs, w) + tail == tail;
    } else {
      var bs, more := WriteAll(xs, w) + tail, WriteAll(xs[1..], w) + tail;
      assert bs[..w] == Bytes(xs[0], w) && bs[w..] == more by {
        assert bs == Bytes(xs[0], w) + more;
      }
      assert Number(bs[..w]) == xs[0] by {
        NumberOfBytes(xs[0], w);
      }
      assert ReadAll(more, |xs| - 1, w) == Some((xs[1..], tail)) by {
        ReadWritten(xs[1..], w, tail);
      }
      assert xs == [xs[0]] + xs[1..];
    }
  }

  lemma WriteOneMore(x: nat, more: seq<nat>, w: nat)
    ensures WriteAll([x] + more, w) == Bytes(x, w) + WriteAll(more, w)
  {
    assert ([x] + more)[1..] == more;
  }

  /** What is read was written so. */
  lemma {:induction false} WrittenRead(bs: seq<Byte>, n: nat, w: nat)
    requires ReadAll(bs, n, w).Some?
    ensures
      var (xs, rest) := ReadAll(bs, n, w).value;
      |xs| == n && Fit(xs, w) && bs == WriteAll(xs, w) + rest
  {
    if n > 0 {
      var (more, rest) := ReadAll(bs[w..], n - 1, w).value;
      WrittenRead(bs[w..], n - 1, w);
      NumberBelow(bs[..w]);
      BytesOfNumber(bs[..w]);
      WriteOneMore(Number(bs[..w]), more, w);
      hide WriteAll, Number, Bytes;
      assert bs == bs[..w] + (WriteAll(more, w) + rest);
    }
  }

  predicate HasAt(bs: seq<Byte>, at: nat, part: seq<Byte>)
  {
    at + |part| <= |bs| && bs[at..at + |part|] == part
  }

  lemma PlacedAt(bs: seq<Byte>, before: seq<Byte>, part: seq<Byte>, after: seq<Byte>, at: nat, piece: seq<Byte>)
    requires bs == before + part + after && HasAt(part, at, piece)
    ensures HasAt(bs, |before| + at, piece)
  {
    assert bs[|before| + at..|before| + at + |piece|] == part[at..at + |piece|];
  }

  /** Number i of a list is at i times its width. */
  lemma {:induction false} WrittenAt(xs: seq<nat>, w: nat, i: nat, at: nat)
    requires i < |xs| && at == i * w
    ensures HasAt(WriteAll(xs, w), at, Bytes(xs[i], w))
  {
    var first, rest := Bytes(xs[0], w), WriteAll(xs[1..], w);
    if i > 0 {
      assert at - w == (i - 1) * w;
      WrittenAt(xs[1..], w, i - 1, at - w);
      PlacedAt(WriteAll(xs, w), first, rest, [], at - w, Bytes(xs[i], w));
    } else {
      assert (first + rest)[0..w] == first;
    }
  }

  function WriteRows(rows: seq<seq<nat>>, w: nat): seq<Byte>
  {
    if rows == [] then [] else WriteAll(rows[0], w) + WriteRows(rows[1..], w)
  }

  function ReadRows(bs: seq<Byte>, n: nat, cols: nat, w: nat): Option<(seq<seq<nat>>, seq<Byte>)>
    decreases n
  {
    if n == 0 then Some(([], bs))
    else
      match ReadAll(bs, cols, w)
      case None => None
      case Some((row, rest)) =>
        match ReadRows(rest, n - 1, cols, w)
        case None => None
        case Some((rows, left)) => Some(([row] + rows, left))
  }

  lemma {:induction false} ReadWrittenRows(rows: seq<seq<nat>>, cols: nat, w: nat, tail: seq<Byte>)
    requires forall r :: 0 <= r < |rows| ==> |rows[r]| == cols && Fit(rows[r], w)
    ensures ReadRows(WriteRows(rows, w) + tail, |rows|, cols, w) == Some((rows, tail))
  {
    if rows == [] {
      assert WriteRows(rows, w) + tail == tail;
    } else {
      assert WriteRows(rows, w) + tail == WriteAll(rows[0], w) + (WriteRows(rows[1..], w) + tail);
      ReadWritten(rows[0], w, WriteRows(rows[1..], w) + tail);
      ReadWrittenRows(rows[1..], cols, w, tail);
      assert rows == [rows[0]] + rows[1..];
    }
  }

  lemma {:induction false} WrittenRowsRead(bs: seq<Byte>, n: nat, cols: nat, w: nat)
    requires ReadRows(bs, n, cols, w).Some?
    ensures
      var (rows, rest) := ReadRows(bs, n, cols, w).value;
      && |rows| == n && (forall r :: 0 <= r < n ==> |rows[r]| == cols && Fit(rows[r], w))
      && bs == WriteRows(rows, w) + rest
    decreases n
  {
    if n > 0 {
      var (row, rest) := ReadAll(bs, cols, w).value;
      WrittenRead(bs, cols, w);
      WrittenRowsRead(rest, n - 1, cols, w);
      var (more, left) := ReadRows(rest, n - 1, cols, w).value;
      var rows := [row] + more;
      assert rows[1..] == more && WriteRows(rows, w) == WriteAll(row, w) + WriteRows(more, w);
    }
  }

  // ----- the file -----

  const MAGIC: seq<Byte> := [83, 87, 68, 80]

  function Header(d: Saved): seq<nat>
  {
    [1, d.embedDim, d.numBits, d.capacity, d.draftLength, d.head, d.len]
  }

  function Encode(d: Saved): seq<Byte>
  {
    MAGIC + (WriteAll(Header(d), 4) + Body(d))
  }

  function Body(d: Saved): seq<Byte>
  {
    WriteRows(d.planes, 4) + (WriteAll(d.hashes, 8) + (WriteAll(d.tokens, 8) + WriteAll(d.positions, 8)))
  }

  /** `load_from`, on the file's bytes. The version is read and ignored, and so is anything after
      the last number. */
  function Decode(bs: seq<Byte>): Option<Saved>
  {
    if |bs| < 28 || bs[..4] != MAGIC then None
    else
      match ReadAll(bs[4..], 7, 4)
      case None => None
      case Some((h, b0)) =>
        match ReadRows(b0, h[2], h[1], 4)
        case None => None
        case Some((planes, b1)) =>
          match ReadAll(b1, h[3], 8)
          case None => None
          case Some((hashes, b2)) =>
            match ReadAll(b2, h[3], 8)
            case None => None
            case Some((tokens, b3)) =>
              match ReadAll(b3, h[3], 8)
              case None => None
              case Some((positions, _)) =>
                Some(Saved(h[1], h[2], h[3], h[4], h[5], h[6], planes, hashes, tokens, positions))
  }

  /** The shape a store in memory always has: planes and rings of their declared sizes, floats of
      32 bits and numbers of 64. */
  ghost predicate WellFormed(d: Saved)
  {
    && |d.planes| == d.numBits &&
        (forall r :: 0 <= r < |d.planes| ==> |d.planes[r]| == d.embedDim && Fit(d.planes[r], 4))
    && |d.hashes| == |d.tokens| == |d.positions| == d.capacity
    && Fit(d.hashes, 8) && Fit(d.tokens, 8) && Fit(d.positions, 8)
  }

  /** A file is read as this store exactly when it is the store's encoding, under any version and
      with anything after it, and the store's header fits. */
  lemma LoadExact(bs: seq<Byte>, d: Saved)
    ensures Decode(bs) == Some(d) <==>
      && WellFormed(d) && Fit(Header(d), 4)
      && exists version: nat, rest ::
           Fit([version], 4) && bs == MAGIC + (WriteAll(Header(d)[0 := version], 4) + (Body(d) + rest))
  {
    if Decode(bs) == Some(d) {
      var version, rest := DecodedIs(bs, d);
    }
    if version: nat, rest :|
      && WellFormed(d) && Fit(Header(d), 4) && Fit([version], 4)
      && bs == MAGIC + (WriteAll(Header(d)[0 := version], 4) + (Body(d) + rest))
    {
      EncodedReads(bs, d, version, rest);
    }
  }

  lemma DecodedIs(bs: seq<Byte>, d: Saved) returns (version: nat, rest: seq<Byte>)
    requires Decode(bs) == Some(d)
    ensures WellFormed(d) && Fit(Header(d), 4) && Fit([version], 4)
    ensures bs == MAGIC + (WriteAll(Header(d)[0 := version], 4) + (Body(d) + rest))
  {
    assert 1 < Power256(4);
    hide ReadAll, ReadRows, WriteAll, WriteRows, Power256;
    var (h, b0) := ReadAll(bs[4..], 7, 4).value;
    WrittenRead(bs[4..], 7, 4);
    var (planes, b1) := ReadRows(b0, h[2], h[1], 4).value;
    WrittenRowsRead(b0, h[2], h[1], 4);
    version := h[0];
    rest := RingsRead(b1, h[3]);
    BodyAnd(d, rest);
    hide Body;
    assert h == Header(d)[0 := version];
    assert bs == MAGIC + bs[4..];
  }

  lemma BodyAnd(d: Saved, rest: seq<Byte>)
    ensures
      var rings := WriteAll(d.hashes, 8) + (WriteAll(d.tokens, 8) + (WriteAll(d.positions, 8) + rest));
      Body(d) + rest == WriteRows(d.planes, 4) + rings
  {
    hide WriteAll, WriteRows;
  }

  /** The three rings, one after the other. */
  lemma RingsRead(bs: seq<Byte>, n: nat) returns (rest: seq<Byte>)
    requires ReadAll(bs, n, 8).Some? && ReadAll(ReadAll(bs, n, 8).value.1, n, 8).Some?
    requires ReadAll(ReadAll(ReadAll(bs, n, 8).value.1, n, 8).value.1, n, 8).Some?
    ensures
      var (hashes, b2) := ReadAll(bs, n, 8).value;
      var (tokens, b3) := ReadAll(b2, n, 8).value;
      var positions := ReadAll(b3, n, 8).value.0;
      && |hashes| == |tokens| == |positions| == n && Fit(hashes, 8) && Fit(tokens, 8) && Fit(positions, 8)
      && bs == WriteAll(hashes, 8) + (WriteAll(tokens, 8) + (WriteAll(positions, 8) + rest))
  {
    hide ReadAll, WriteAll, Power256;
    var (hashes, b2) := ReadAll(bs, n, 8).value;
    WrittenRead(bs, n, 8);
    var (tokens, b3) := ReadAll(b2, n, 8).value;
    WrittenRead(b2, n, 8);
    rest := ReadAll(b3, n, 8).value.1;
    WrittenRead(b3, n, 8);
  }

  lemma EncodedReads(bs: seq<Byte>, d: Saved, version: nat, rest: seq<Byte>)
    requires WellFormed(d) && Fit(Header(d), 4) && Fit([version], 4)
    requires bs == MAGIC + (WriteAll(Header(d)[0 := version], 4) + (Body(d) + rest))
    ensures Decode(bs) == Some(d)
  {
    hide ReadAll, ReadRows, WriteAll, WriteRows, Power256;
    var h := Header(d)[0 := version];
    assert Fit(h, 4) by {
      assert [version][0] < Power256(4);
    }
    var t3 := WriteAll(d.positions, 8) + rest;
    var t2 := WriteAll(d.tokens, 8) + t3;
    var t1 := WriteAll(d.hashes, 8) + t2;
    var t0 := WriteRows(d.planes, 4) + t1;
    BodyAnd(d, rest);
    HeaderSize(h);
    assert bs[..4] == MAGIC && bs[4..] == WriteAll(h, 4) + t0;
    ReadWritten(h, 4, t0);
    ReadWrittenRows(d.planes, d.embedDim, 4, t1);
    ReadWritten(d.hashes, 8, t2);
    ReadWritten(d.tokens, 8, t3);
    ReadWritten(d.positions, 8, rest);
  }

  lemma LoadSaved(d: Saved)
    requires WellFormed(d) && Fit(Header(d), 4)
    ensures Decode(Encode(d)) == Some(d)
  {
    assert 1 < Power256(4);
    assert Header(d)[0 := 1] == Header(d) && Body(d) + [] == Body(d);
    EncodedReads(Encode(d), d, 1, []);
  }

  /** Where the file has what: its mark, the version and header fields in 4 bytes each, the planes, and
      from `base` on the hashes, tokens and positions in 8 bytes each. */
  lemma Layout(d: Saved, base: nat, i: nat)
    requires |d.hashes| == |d.tokens| == |d.positions| == d.capacity && base == 32 + |WriteRows(d.planes, 4)|
    ensures HasAt(Encode(d), 0, [83, 87, 68, 80]) && |Encode(d)| == base + 24 * d.capacity
    ensures i < 7 ==>
        HasAt(Encode(d), 4 + 4 * i, Bytes([1, d.embedDim, d.numBits, d.capacity, d.draftLength, d.head, d.len][i], 4))
    ensures i < d.capacity ==>
        && HasAt(Encode(d), base + 8 * i, Bytes(d.hashes[i], 8))
        && HasAt(Encode(d), base + 8 * d.capacity + 8 * i, Bytes(d.tokens[i], 8))
        && HasAt(Encode(d), base + 16 * d.capacity + 8 * i, Bytes(d.positions[i], 8))
  {
    hide *;
    EncodedParts(d);
    if i < 7 {
      HeaderAt(d, i);
    }
    var h, p := WriteAll(Header(d), 4), WriteRows(d.planes, 4);
    var a, b, c := WriteAll(d.hashes, 8), WriteAll(d.tokens, 8), WriteAll(d.positions, 8);
    if i < d.capacity {
      RingAt(Encode(d), MAGIC + h + p, d.hashes, 8, b + c, i, 8 * i);
      RingAt(Encode(d), MAGIC + h + p + a, d.tokens, 8, c, i, 8 * i);
      RingAt(Encode(d), MAGIC + h + p + a + b, d.positions, 8, [], i, 8 * i);
    }
  }

  lemma RingAt(bs: seq<Byte>, before: seq<Byte>, ring: seq<nat>, w: nat, after: seq<Byte>, i: nat, at: nat)
    requires bs == before + WriteAll(ring, w) + after && i < |ring| && at == i * w
    ensures HasAt(bs, |before| + at, Bytes(ring[i], w))
  {
    hide *;
    WrittenAt(ring, w, i, at);
    PlacedAt(bs, before, WriteAll(ring, w), after, at, Bytes(ring[i], w));
  }

  lemma EncodedParts(d: Saved)
    requires |d.hashes| == |d.tokens| == |d.positions| == d.capacity
    ensures
      var h, p := WriteAll(Header(d), 4), WriteRows(d.planes, 4);
      var a, b, c := WriteAll(d.hashes, 8), WriteAll(d.tokens, 8), WriteAll(d.positions, 8);
      && Encode(d) == MAGIC + h + p + a + b + c && |Encode(d)| == 32 + |p| + 24 * d.capacity
      && |h| == 28 && |a| == |b| == |c| == 8 * d.capacity
      && HasAt(Encode(d), 0, [83, 87, 68, 80])
  {
    SizeOfAll(Header(d), 4);
    SizeOfAll(d.hashes, 8);
    SizeOfAll(d.tokens, 8);
    SizeOfAll(d.positions, 8);
    hide WriteAll, WriteRows;
  }

  lemma HeaderAt(d: Saved, i: nat)
    requires i < 7 && |d.hashes| == |d.tokens| == |d.positions| == d.capacity
    ensures HasAt(Encode(d), 4 + 4 * i,
                  Bytes([1, d.embedDim, d.numBits, d.capacity, d.draftLength, d.head, d.len][i], 4))
  {
    WrittenAt(Header(d), 4, i, 4 * i);
    EncodedParts(d);
    hide WriteAll, WriteRows, Bytes, Encode;
    var h, rest := WriteAll(Header(d), 4), Encode(d)[32..];
    assert Encode(d) == MAGIC + h + rest;
    PlacedAt(Encode(d), MAGIC, h, rest, 4 * i, Bytes(Header(d)[i], 4));
  }

  /** Save and load undo each other exactly when every header field fits in 32 bits. */
  lemma SaveLoad(d: Saved)
    requires WellFormed(d)
    ensures Decode(Encode(d)) == Some(d) <==> Fit(Header(d), 4)
  {
    if Fit(Header(d), 4) {
      LoadSaved(d);
    } else if Decode(Encode(d)) == Some(d) {
      HeaderIsRead(Encode(d), d);
    }
  }

  lemma HeaderSize(h: seq<nat>)
    requires |h| == 7
    ensures |WriteAll(h, 4)| == 28
  {
    SizeOfAll(h, 4);
  }

  lemma {:induction false} SizeOfAll(xs: seq<nat>, w: nat)
    ensures w == 4 ==> |WriteAll(xs, w)| == 4 * |xs|
    ensures w == 8 ==> |WriteAll(xs, w)| == 8 * |xs|
  {
    if xs != [] {
      SizeOfAll(xs[1..], w);
    }
  }

  /** Header fields that were read are below 2^32. */
  lemma HeaderIsRead(bs: seq<Byte>, d: Saved)
    requires Decode(bs) == Some(d)
    ensures Fit(Header(d), 4)
  {
    ReadFits(bs[4..], 7, 4);
    assert 1 < Power256(4);
  }

  lemma {:induction false} ReadFits(bs: seq<Byte>, n: nat, w: nat)
    ensures ReadAll(bs, n, w).Some? ==> Fit(ReadAll(bs, n, w).value.0, w)
  {
    if n > 0 && |bs| >= w {
      ReadFits(bs[w..], n - 1, w);
      NumberBelow(bs[..w]);
    }
  }

  // ----- the loops -----

  /** Append numbers to a buffer one by one. */
  method AppendAll(buf: seq<Byte>, xs: seq<nat>, w: nat) returns (r: seq<Byte>)
    ensures r == buf + WriteAll(xs, w)
  {
    r := buf;
    for i := 0 to |xs|
      invariant r + WriteAll(xs[i..], w) == buf + WriteAll(xs, w)
    {
      ghost var was := r;
      r := r + Bytes(xs[i], w);
      assert xs[i..][1..] == xs[i + 1..];
      assert r + WriteAll(xs[i + 1..], w) == was + WriteAll(xs[i..], w);
    }
    assert r + [] == r;
  }

  method AppendRows(buf: seq<Byte>, rows: seq<seq<nat>>, w: nat) returns (r: seq<Byte>)
    ensures r == buf + WriteRows(rows, w)
  {
    r := buf;
    for i := 0 to |rows|
      invariant r + WriteRows(rows[i..], w) == buf + WriteRows(rows, w)
    {
      ghost var was := r;
      r := AppendAll(r, rows[i], w);
      assert rows[i..][1..] == rows[i + 1..];
      assert r + WriteRows(rows[i + 1..], w) == was + WriteRows(rows[i..], w);
    }
    assert r + [] == r;
  }

  /** `save_to`: the bytes that are written. */
  method Save(d: Saved) returns (buf: seq<Byte>)
    ensures buf == Encode(d)
  {
    buf := AppendAll(MAGIC, Header(d), 4);
    buf := AppendRows(buf, d.planes, 4);
    buf := AppendAll(buf, d.hashes, 8);
    buf := AppendAll(buf, d.tokens, 8);
    buf := AppendAll(buf, d.positions, 8);
    Associates(MAGIC, WriteAll(Header(d), 4), WriteRows(d.planes, 4), WriteAll(d.hashes, 8), WriteAll(d.tokens, 8),
               WriteAll(d.positions, 8));
  }

  lemma Associates(a: seq<Byte>, b: seq<Byte>, c: seq<Byte>, d: seq<Byte>, e: seq<Byte>, f: seq<Byte>)
    ensures a + b + c + d + e + f == a + (b + (c + (d + (e + f))))
  {
  }

  function Prepend<T>(xs: seq<T>, r: Option<(seq<T>, seq<Byte>)>): Option<(seq<T>, seq<Byte>)>
  {
    match r
    case None => None
    case Some((ys, rest)) => Some((xs + ys, rest))
  }

  /** Read numbers at a cursor, which moves on; None when the bytes run out. */
  method ReadAt(bs: seq<Byte>, at: nat, n: nat, w: nat) returns (r: Option<seq<nat>>, next: nat)
    requires at <= |bs|
    ensures at <= next <= |bs|
    ensures ReadAll(bs[at..], n, w) == if r.Some? then Some((r.value, bs[next..])) else None
  {
    var xs: seq<nat>;
    xs, next := [], at;
    PrependNone(ReadAll(bs[at..], n, w));
    for i := 0 to n
      invariant at <= next <= |bs|
      invariant ReadAll(bs[at..], n, w) == Prepend(xs, ReadAll(bs[next..], n - i, w))
    {
      if next + w > |bs| {
        return None, next;
      }
      assert bs[next..][w..] == bs[next + w..] && bs[next..][..w] == bs[next..next + w];
      PrependMore(xs, Number(bs[next..next + w]), ReadAll(bs[next + w..], n - i - 1, w));
      xs, next := xs + [Number(bs[next..next + w])], next + w;
    }
    assert xs + [] == xs;
    r := Some(xs);
  }

  lemma PrependNone<T>(r: Option<(seq<T>, seq<Byte>)>)
    ensures Prepend([], r) == r
  {
    if r.Some? {
      assert [] + r.value.0 == r.value.0;
    }
  }

  lemma PrependMore<T>(xs: seq<T>, x: T, r: Option<(seq<T>, seq<Byte>)>)
    ensures Prepend(xs, match r case None => None case Some((ys, rest)) => Some(([x] + ys, rest))) ==
        Prepend(xs + [x], r)
  {
    if r.Some? {
      assert xs + ([x] + r.value.0) == xs + [x] + r.value.0;
    }
  }

  method ReadRowsAt(bs: seq<Byte>, at: nat, n: nat, cols: nat, w: nat) returns (r: Option<seq<seq<nat>>>, next: nat)
    requires at <= |bs|
    ensures at <= next <= |bs|
    ensures ReadRows(bs[at..], n, cols, w) == if r.Some? then Some((r.value, bs[next..])) else None
  {
    var rows: seq<seq<nat>>;
    rows, next := [], at;
    PrependNone(ReadRows(bs[at..], n, cols, w));
    for i := 0 to n
      invariant at <= next <= |bs|
      invariant ReadRows(bs[at..], n, cols, w) == Prepend(rows, ReadRows(bs[next..], n - i, cols, w))
    {
      var row, after := ReadAt(bs, next, cols, w);
      if row.None? {
        return None, next;
      }
      PrependMore(rows, row.value, ReadRows(bs[after..], n - i - 1, cols, w));
      rows, next := rows + [row.value], after;
    }
    assert rows + [] == rows;
    r := Some(rows);
  }

  /** `load_from`, with its cursor. */
  method Load(bs: seq<Byte>) returns (d: Option<Saved>)
    ensures d == Decode(bs)
  {
    if |bs| < 28 || bs[..4] != MAGIC {
      return None;
    }
    var h, b0 := ReadAt(bs, 4, 7, 4);
    if h.None? { return None; }
    var planes, b1 := ReadRowsAt(bs, b0, h.value[2], h.value[1], 4);
    if planes.None? { return None; }
    var hashes, b2 := ReadAt(bs, b1, h.value[3], 8);
    if hashes.None? { return None; }
    var tokens, b3 := ReadAt(bs, b2, h.value[3], 8);
    if tokens.None? { return None; }
    var positions, b4 := ReadAt(bs, b3, h.value[3], 8);
    if positions.None? { return None; }
    d := Some(Saved(h.value[1], h.value[2], h.value[3], h.value[4], h.value[5], h.value[6],
                    planes.value, hashes.value, tokens.value, positions.value));
  }
}
