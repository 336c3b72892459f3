/** Multiples as sums, for arithmetic with sizes that are not constants. */
module Multiples {
  /** n * b, as a sum. */
  function Times(n: nat, b: nat): nat {
    if n == 0 then 0 else Times(n - 1, b) + b
  }

  lemma {:induction false} TimesIs(n: nat, b: nat)
    ensures Times(n, b) == n * b
  {
    if n > 0 {
      TimesIs(n - 1, b);
      assert (n - 1) * b + b == n * b;
    }
  }

  /** A multiple ends before a larger one starts. */
  lemma {:induction false} TimesApart(y: nat, z: nat, b: nat)
    requires y < z
    ensures Times(y, b) + b <= Times(z, b)
    decreases z
  {
    if y < z - 1 {
      TimesApart(y, z - 1, b);
    }
  }

  lemma {:induction false} TimesSum(y: nat, z: nat, b: nat)
    ensures Times(y + z, b) == Times(y, b) + Times(z, b)
  {
    if z > 0 {
      TimesSum(y, z - 1, b);
    }
  }

  /** Quotient and remainder are determined by the number. */
  lemma Unique(b: nat, y: nat, x: int, z: nat, w: int)
    requires 0 <= x < b && 0 <= w < b && Times(y, b) + x == Times(z, b) + w
    ensures y == z && x == w
  {
    if y < z {
      TimesApart(y, z, b);
    } else if z < y {
      TimesApart(z, y, b);
    }
  }

  lemma DivIs(k: nat, off: nat, b: nat)
    requires off < b
    ensures (Times(k, b) + off) / b == k && (Times(k, b) + off) % b == off
  {
    var n := Times(k, b) + off;
    DivMod(n, b);
    Unique(b, k, off, n / b, n % b);
  }

  lemma DivMod(n: nat, b: nat)
    requires 0 < b
    ensures 0 <= n / b && 0 <= n % b < b && n == Times(n / b, b) + n % b
  {
    TimesIs(n / b, b);
    assert n == (n / b) * b + n % b;
  }

  lemma RoundUp(k: nat, off: nat, b: nat)
    requires off < b
    ensures (Times(k, b) + off + (b - 1)) / b == if off == 0 then k else k + 1
  {
    if off == 0 {
      DivIs(k, b - 1, b);
    } else {
      DivIs(k + 1, off - 1, b);
    }
  }

  /** The remainder of a number, by subtraction. */
  function Offset(n: nat, b: nat): nat
    requires 0 < b
    decreases n
  {
    if n < b then n else Offset(n - b, b)
  }

  lemma {:induction false} OffsetOf(k: nat, off: nat, b: nat)
    requires off < b
    ensures Offset(Times(k, b) + off, b) == off
  {
    if k > 0 {
      OffsetOf(k - 1, off, b);
    }
  }

  lemma OffsetIs(n: nat, b: nat)
    requires 0 < b
    ensures Offset(n, b) == n % b && Offset(n, b) < b && n == Times(n / b, b) + Offset(n, b)
  {
    DivMod(n, b);
    OffsetOf(n / b, n % b, b);
  }
}
