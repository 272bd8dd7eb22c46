// Shared vocabulary: options, bytes and a few facts about sequences.
module Common {

  datatype Option<+T> = None | Some(value: T)

  type Byte = b: nat | b < 256

  ghost predicate Distinct<T>(s: seq<T>)
  {
    forall i, j :: 0 <= i < j < |s| ==> s[i] != s[j]
  }

  function RemoveAt<T>(s: seq<T>, i: nat): (r: seq<T>)
    requires i < |s|
    ensures |r| == |s| - 1
    ensures forall k :: 0 <= k < |r| ==> r[k] == s[if k < i then k else k + 1]
  {
    seq(|s| - 1, k requires 0 <= k < |s| - 1 => if k < i then s[k] else s[k + 1])
  }

  lemma RemoveAtMembers<T>(s: seq<T>, i: nat, x: T)
    requires i < |s| && Distinct(s)
    ensures x in RemoveAt(s, i) <==> x in s && x != s[i]
  {
    if x in s && x != s[i] {
      var k :| 0 <= k < |s| && s[k] == x;
      assert RemoveAt(s, i)[if k < i then k else k - 1] == x;
    }
  }

  lemma RemoveAtDistinct<T>(s: seq<T>, i: nat)
    requires i < |s| && Distinct(s)
    ensures Distinct(RemoveAt(s, i))
  {
  }

  lemma SliceOfSlice<T>(s: seq<T>, a: nat, n: nat, b: nat, m: nat)
    requires a + n <= |s| && b + m <= n
    ensures s[a..a + n][b..b + m] == s[a + b..a + b + m]
  {
    var long, short := s[a..a + n], s[a + b..a + b + m];
    forall i | 0 <= i < m
      ensures long[b..b + m][i] == short[i]
    {
      assert long[b + i] == s[a + b + i];
    }
  }

  /** A mark that no step takes away stays to the end. */
  lemma {:induction false} OnceSet(marks: seq<bool>, k: nat, n: nat)
    requires k <= n < |marks| && forall i {:trigger marks[i]} :: 0 <= i < |marks| - 1 && marks[i] ==> marks[i + 1]
    ensures marks[k] ==> marks[n]
    decreases n
  {
    if k < n {
      OnceSet(marks, k, n - 1);
    }
  }

  /** The position of `x`, for a sequence that holds it. */
  ghost function IndexOf<T>(s: seq<T>, x: T): (i: nat)
    requires x in s
    ensures i < |s| && s[i] == x
  {
    var i :| 0 <= i < |s| && s[i] == x;
    i
  }

  function Max(a: int, b: int): int { if a < b then b else a }
  function Min(a: int, b: int): int { if a < b then a else b }

  // ----- sizes of sets -----

  function Below(n: nat): (r: set<nat>)
    ensures forall i: nat :: i in r <==> i < n
  {
    if n == 0 then {} else Below(n - 1) + {n - 1}
  }

  lemma {:induction false} BelowSize(n: nat)
    ensures |Below(n)| == n
  {
    if n > 0 {
      BelowSize(n - 1);
    }
  }

  function Members<T(!new)>(s: seq<T>): (r: set<T>)
    ensures forall x :: x in r <==> x in s
  {
    if s == [] then {} else Members(s[..|s| - 1]) + {s[|s| - 1]}
  }

  lemma {:induction false} DistinctSize<T(!new)>(s: seq<T>)
    requires Distinct(s)
    ensures |Members(s)| == |s|
  {
    if s != [] {
      DistinctSize(s[..|s| - 1]);
    }
  }

  lemma SubsetSize<T>(a: set<T>, b: set<T>)
    requires a <= b
    ensures |a| <= |b| && (a == b <==> |a| == |b|)
  {
    assert b == a + (b - a) && |b| == |a| + |b - a|;
  }

  lemma {:induction false} InjectiveSize<A, B>(m: map<A, B>)
    requires forall a, b :: a in m && b in m && m[a] == m[b] ==> a == b
    ensures |m.Values| == |m|
    decreases |m|
  {
    if m != map[] {
      var a :| a in m;
      var rest := m - {a};
      InjectiveSize(rest);
      forall v | v in m.Values
        ensures v in rest.Values + {m[a]}
      {
        var b :| b in m && m[b] == v;
        assert b != a ==> b in rest && rest[b] == v;
      }
      assert m.Values == rest.Values + {m[a]};
    }
  }

  // ----- arithmetic -----

  /** 2 to the k. */
  function Power(k: nat): (r: nat)
    ensures r > k
  {
    if k == 0 then 1 else 2 * Power(k - 1)
  }

  lemma Distribute(a: nat, b: nat, c: nat)
    ensures (a + b) * c == a * c + b * c
  {
  }

  lemma MulMonotone(k: nat, a: int, b: int)
    requires a <= b
    ensures k * a <= k * b
  {
    assert k * (b - a) >= 0;
  }

  lemma Remainder(x: nat, n: nat)
    requires n > 0 && x < 2 * n
    ensures x % n == if x < n then x else x - n
  {
    if x >= n {
      assert x == 1 * n + (x - n);
    }
  }

  /** Whole groups of `size`, when no more fit. */
  lemma FullGroups(n: nat, groups: nat, size: nat)
    requires size > 0 && groups * size <= n < groups * size + size
    ensures groups * size == n / size * size
  {
    var q := n / size;
    assert q * size <= n < q * size + size;
    if q < groups {
      MulMonotone(size, q + 1, groups);
    } else if q > groups {
      MulMonotone(size, groups + 1, q);
    }
  }

  // ----- bits -----

  /** Bit i of a number. */
  predicate Bit(a: nat, i: nat)
  {
    if i == 0 then a % 2 == 1 else Bit(a / 2, i - 1)
  }

  lemma {:induction false} ZeroBits(i: nat)
    ensures !Bit(0, i)
  {
    if i > 0 {
      ZeroBits(i - 1);
    }
  }

  /** Numbers with the same bits are the same. */
  lemma {:induction false} BitsDetermine(a: nat, b: nat)
    requires forall i :: 0 <= i <= Max(a, b) ==> (Bit(a, i) <==> Bit(b, i))
    ensures a == b
    decreases a + b
  {
    if a + b > 0 {
      forall i | 0 <= i <= Max(a / 2, b / 2)
        ensures Bit(a / 2, i) <==> Bit(b / 2, i)
      {
        assert Bit(a, i + 1) <==> Bit(b, i + 1);
      }
      BitsDetermine(a / 2, b / 2);
      assert Bit(a, 0) <==> Bit(b, 0);
    }
  }

  lemma HalfOfRemainder(b: nat, m: nat)
    requires m > 0
    ensures b % (2 * m) / 2 == b / 2 % m && b % (2 * m) % 2 == b % 2
  {
    var q, r := b / (2 * m), b % (2 * m);
    assert b == 2 * (m * q) + r;
    assert b / 2 == m * q + r / 2 && b % 2 == r % 2;
    assert 0 <= r / 2 < m;
    RemainderIs(m * q + r / 2, m, q, r / 2);
  }

  lemma RemainderIs(x: int, m: int, q: int, r: int)
    requires m > 0 && x == m * q + r && 0 <= r < m
    ensures x / m == q && x % m == r
  {
    var q', r' := x / m, x % m;
    assert m * (q' - q) == r - r';
    if q' > q {
      MulMonotone(m, 1, q' - q);
    } else if q' < q {
      MulMonotone(m, q' - q, -1);
    }
  }

  /** The low k bits of a number are the bits of its remainder. */
  lemma {:induction false} RemainderBits(b: nat, k: nat, i: nat)
    ensures Bit(b % Power(k), i) <==> i < k && Bit(b, i)
    decreases k
  {
    if k == 0 {
      ZeroBits(i);
    } else {
      HalfOfRemainder(b, Power(k - 1));
      if i > 0 {
        RemainderBits(b / 2, k - 1, i - 1);
      }
    }
  }

  /** Bits of the low part of a number, and of a number shifted down. */
  lemma LowBits(b: nat, i: nat)
    ensures Bit(b % 16, i) <==> i < 4 && Bit(b, i)
    ensures Bit(b % 64, i) <==> i < 6 && Bit(b, i)
    ensures Bit(b / 16, i) <==> Bit(b, i + 4)
    ensures Bit(b / 64, i) <==> Bit(b, i + 6)
  {
    assert Power(4) == 16 && Power(6) == 64;
    RemainderBits(b, 4, i);
    RemainderBits(b, 6, i);
    ShiftedBits(b, i);
  }

  lemma ShiftedBits(b: nat, i: nat)
    ensures Bit(b / 16, i) <==> Bit(b, i + 4)
    ensures Bit(b / 64, i) <==> Bit(b, i + 6)
  {
    var c := b / 2 / 2 / 2 / 2;
    assert Bit(b, i + 4) <==> Bit(b / 2, i + 3);
    assert Bit(b / 2, i + 3) <==> Bit(b / 2 / 2, i + 2);
    assert Bit(b / 2 / 2, i + 2) <==> Bit(b / 2 / 2 / 2, i + 1);
    assert Bit(b / 2 / 2 / 2, i + 1) <==> Bit(c, i);
    assert c == b / 16 && c / 2 / 2 == b / 64;
    assert Bit(b, i + 6) <==> Bit(b / 2, i + 5);
    assert Bit(b / 2, i + 5) <==> Bit(b / 2 / 2, i + 4);
    assert Bit(b / 2 / 2, i + 4) <==> Bit(b / 2 / 2 / 2, i + 3);
    assert Bit(b / 2 / 2 / 2, i + 3) <==> Bit(c, i + 2);
    assert Bit(c, i + 2) <==> Bit(c / 2, i + 1);
    assert Bit(c / 2, i + 1) <==> Bit(c / 2 / 2, i);
  }

  /** Four low bits and what is above them. */
  lemma JoinedBits(low: nat, high: nat, i: nat)
    requires low < 16
    ensures Bit(low + high * 16, i) <==> if i < 4 then Bit(low, i) else Bit(high, i - 4)
  {
    var n := low + high * 16;
    assert n % 16 == low && n / 16 == high;
    LowBits(n, i);
    if i >= 4 {
      LowBits(n, i - 4);
    }
  }
}
