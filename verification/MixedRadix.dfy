// Row-major indices: a * n + b.
module MixedRadix {

  /** a * n + b, as a sum to keep products away from the solver; RadixIs gives the product. */
  function Radix(a: nat, n: nat, b: nat): nat
  {
    if a == 0 then b else Radix(a - 1, n, b) + n
  }

  lemma {:induction false} RadixIs(a: nat, n: nat, b: nat)
    ensures Radix(a, n, b) == a * n + b
  {
    if a > 0 {
      RadixIs(a - 1, n, b);
      assert a * n == (a - 1) * n + n;
    }
  }

  lemma {:induction false} RadixInjective(a: nat, n: nat, b: nat, c: nat, d: nat)
    requires b < n && d < n && Radix(a, n, b) == Radix(c, n, d)
    ensures a == c && b == d
  {
    if a > 0 { RadixAtLeast(a - 1, n, b); }
    if c > 0 { RadixAtLeast(c - 1, n, d); }
    if a > 0 && c > 0 {
      RadixInjective(a - 1, n, b, c - 1, d);
    }
  }

  lemma {:induction false} RadixAtLeast(a: nat, n: nat, b: nat)
    ensures Radix(a, n, b) >= b
  {
    if a > 0 { RadixAtLeast(a - 1, n, b); }
  }

  lemma {:induction false} RadixBelow(a: nat, n: nat, b: nat, c: nat)
    requires a < c && b < n
    ensures Radix(a, n, b) < Radix(c, n, 0)
  {
    if a > 0 {
      RadixBelow(a - 1, n, b, c - 1);
    } else {
      RadixAtLeast(c - 1, n, 0);
    }
  }

  lemma {:induction false} RadixShift(a: nat, n: nat, b: nat)
    ensures Radix(a, n, b) == Radix(a, n, 0) + b
  {
    if a > 0 { RadixShift(a - 1, n, b); }
  }

  /** Everything of index a comes before index c. */
  lemma {:induction false} RadixNext(a: nat, n: nat, c: nat)
    requires a < c
    ensures Radix(a, n, 0) + n <= Radix(c, n, 0)
    decreases c
  {
    if a < c - 1 {
      RadixNext(a, n, c - 1);
    }
  }

  lemma RadixCarry(a: nat, n: nat)
    ensures Radix(a, n, n) == Radix(a + 1, n, 0)
  {
    RadixShift(a, n, n);
  }
}
