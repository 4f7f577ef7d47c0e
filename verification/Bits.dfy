/** Bit operations on leaf indices, stated on natural numbers.
    `Shr(x, n)` is `x >> n`: the column of leaf `x`'s ancestor in row `n` of the forest. */
module Bits {

  function Pow2(n: nat): (p: nat)
    ensures p > 0
  {
    if n == 0 then 1 else 2 * Pow2(n - 1)
  }

  /** Fewer than 2^63 leaves: every leaf index is below the sentinel for unassigned leaves. */
  const MAX_LEAVES: nat := 0x8000_0000_0000_0000

  /** The sentinel position of an element that is not in the accumulator yet. */
  const UNASSIGNED: nat := 10101010101010101010

  function Shr(x: nat, n: nat): nat {
    if n == 0 then x else Shr(x, n - 1) / 2
  }

  function Shl(x: nat, n: nat): nat {
    if n == 0 then x else 2 * Shl(x, n - 1)
  }

  predicate Bit(x: nat, n: nat) {
    Shr(x, n) % 2 == 1
  }

  function Xor(x: nat, y: nat): nat
    decreases x + y
  {
    if x == 0 && y == 0 then 0 else 2 * Xor(x / 2, y / 2) + (x % 2 + y % 2) % 2
  }

  function Or(x: nat, y: nat): nat
    decreases x + y
  {
    if x == 0 && y == 0 then 0
    else 2 * Or(x / 2, y / 2) + (if x % 2 == 1 || y % 2 == 1 then 1 else 0)
  }

  /** bits.Len64 */
  function Len(x: nat): nat {
    if x == 0 then 0 else 1 + Len(x / 2)
  }

  /** bits.TrailingZeros64 */
  function TrailingZeros(x: nat): nat
    requires x > 0
  {
    if x % 2 == 1 then 0 else 1 + TrailingZeros(x / 2)
  }

  /** The height at which the proof paths of x and y merge. */
  function MergeHeight(x: nat, y: nat): nat {
    Len(Xor(x, y))
  }

  /** Clears the n least significant bits of x. */
  function ClearBits(x: nat, n: nat): nat {
    Shl(Shr(x, n), n)
  }

  lemma {:induction false} ShrFront(x: nat, n: nat)
    requires n > 0
    ensures Shr(x, n) == Shr(x / 2, n - 1)
  {
    if n > 1 { ShrFront(x, n - 1); }
  }

  lemma {:induction false} ShrMonotone(x: nat, y: nat, n: nat)
    requires x <= y
    ensures Shr(x, n) <= Shr(y, n)
  {
    if n > 0 { ShrMonotone(x, y, n - 1); }
  }

  lemma {:induction false} ShrAdd(x: nat, m: nat, n: nat)
    ensures Shr(Shr(x, m), n) == Shr(x, m + n)
  {
    if n > 0 { ShrAdd(x, m, n - 1); }
  }

  /** Equal columns in one row stay equal in every higher row. */
  lemma {:induction false} ShrEqualAbove(x: nat, y: nat, m: nat, n: nat)
    requires m <= n && Shr(x, m) == Shr(y, m)
    ensures Shr(x, n) == Shr(y, n)
  {
    ShrAdd(x, m, n - m);
    ShrAdd(y, m, n - m);
  }

  lemma {:induction false} ShlAdd(x: nat, y: nat, n: nat)
    ensures Shl(x + y, n) == Shl(x, n) + Shl(y, n)
  {
    if n > 0 { ShlAdd(x, y, n - 1); }
  }

  lemma {:induction false} ShlPow2(n: nat)
    ensures Shl(1, n) == Pow2(n)
  {
    if n > 0 { ShlPow2(n - 1); }
  }

  lemma {:induction false} ShlFront(x: nat, n: nat)
    requires n > 0
    ensures Shl(x, n) == Shl(2 * x, n - 1)
  {
    if n > 1 { ShlFront(x, n - 1); }
  }

  /** The leaves below column k of row n are exactly those in [k << n, (k+1) << n). */
  lemma {:induction false} ShrRange(x: nat, n: nat, k: nat)
    ensures Shr(x, n) == k <==> Shl(k, n) <= x < Shl(k + 1, n)
    ensures Shr(x, n) < k <==> x < Shl(k, n)
    ensures Shl(k + 1, n) == Shl(k, n) + Pow2(n)
    decreases n
  {
    ShlAdd(k, 1, n);
    ShlPow2(n);
    if n > 0 {
      ShrFront(x, n);
      ShrRange(x / 2, n - 1, k);
    }
  }

  lemma {:induction false} ShrSmall(x: nat, n: nat)
    requires x < Pow2(n)
    ensures Shr(x, n) == 0
  {
    ShrRange(x, n, 0);
    ShlZero(n);
  }

  lemma {:induction false} ShrShl(x: nat, n: nat)
    ensures Shr(Shl(x, n), n) == x
  {
    ShrRange(Shl(x, n), n, x);
  }

  lemma {:induction false} ShrZero(h: nat)
    ensures Shr(0, h) == 0
  {
    if h > 0 { ShrZero(h - 1); }
  }

  lemma {:induction false} ShlZero(n: nat)
    ensures Shl(0, n) == 0
  {
    if n > 0 { ShlZero(n - 1); }
  }

  lemma {:induction false} XorZero(x: nat, y: nat)
    ensures Xor(x, y) == 0 <==> x == y
    decreases x + y
  {
    if !(x == 0 && y == 0) { XorZero(x / 2, y / 2); }
  }

  lemma {:induction false} XorSymmetric(x: nat, y: nat)
    ensures Xor(x, y) == Xor(y, x)
    decreases x + y
  {
    if !(x == 0 && y == 0) { XorSymmetric(x / 2, y / 2); }
  }

  /** mergeHeight(x, y) is the lowest row in which x and y share a column. */
  lemma {:induction false} MergeStep(x: nat, y: nat)
    ensures MergeHeight(x, y) == if x == y then 0 else 1 + MergeHeight(x / 2, y / 2)
  {
    XorZero(x, y);
  }

  lemma {:induction false} MergeHeightIff(x: nat, y: nat, h: nat)
    ensures MergeHeight(x, y) <= h <==> Shr(x, h) == Shr(y, h)
    decreases h
  {
    hide Xor, Len;
    MergeStep(x, y);
    if h > 0 {
      ShrFront(x, h);
      ShrFront(y, h);
      MergeHeightIff(x / 2, y / 2, h - 1);
    }
  }

  lemma {:induction false} TrailingZerosPow2(n: nat)
    ensures TrailingZeros(Pow2(n)) == n
  {
    if n > 0 { TrailingZerosPow2(n - 1); }
  }

  lemma {:induction false} Pow2Monotone(m: nat, n: nat)
    requires m <= n
    ensures Pow2(m) <= Pow2(n)
    decreases n
  {
    if m < n { Pow2Monotone(m, n - 1); }
  }

  lemma {:induction false} Pow2Step(n: nat)
    ensures Pow2(n + 7) == 128 * Pow2(n)
  {
    assert Pow2(n + 2) == 4 * Pow2(n);
    assert Pow2(n + 4) == 4 * Pow2(n + 2);
    assert Pow2(n + 6) == 4 * Pow2(n + 4);
  }

  lemma {:induction false} Pow2BigStep(n: nat)
    ensures Pow2(n + 21) == 0x20_0000 * Pow2(n)
  {
    Pow2Step(n);
    Pow2Step(n + 7);
    Pow2Step(n + 14);
  }

  lemma {:induction false} MaxLeavesPow2()
    ensures MAX_LEAVES == Pow2(63)
  {
    Pow2BigStep(0);
    Pow2BigStep(21);
    Pow2BigStep(42);
  }

  /** A row above all leaves is free, so 64 slots suffice for fewer than 2^63 leaves. */
  lemma {:induction false} TopRowFree(n: nat, g: nat)
    requires n < MAX_LEAVES && g >= 63
    ensures !Bit(n, g)
  {
    MaxLeavesPow2();
    ShrSmall(n, 63);
    ShrAdd(n, 63, g - 63);
    ShrSmall(0, g - 63);
  }

  // ---- The number of leaves inferred from a few of them ----

  lemma {:induction false} ClearBitsHalf(x: nat, n: nat)
    requires n > 0
    ensures ClearBits(x, n) == 2 * ClearBits(x / 2, n - 1)
  {
    ShrFront(x, n);
  }

  lemma {:induction false} OrZero(x: nat)
    ensures Or(0, x) == x
  {
    if x > 0 { OrZero(x / 2); }
  }

  lemma {:induction false} OrSame(x: nat)
    ensures Or(x, x) == x
  {
    if x > 0 { OrSame(x / 2); }
  }

  lemma {:induction false} OrSymmetric(x: nat, y: nat)
    ensures Or(x, y) == Or(y, x)
    decreases x + y
  {
    if !(x == 0 && y == 0) { OrSymmetric(x / 2, y / 2); }
  }

  lemma {:induction false} OrDouble(x: nat, y: nat)
    ensures Or(2 * x, 2 * y) == 2 * Or(x, y)
  {
    if x == 0 && y == 0 {} else {
      assert Or(2 * x, 2 * y) == 2 * Or((2 * x) / 2, (2 * y) / 2);
    }
  }

  /** Clearing more low bits of the same number adds nothing. */
  lemma {:induction false} OrCleared(n: nat, a: nat, b: nat)
    requires a <= b
    ensures Or(ClearBits(n, a), ClearBits(n, b)) == ClearBits(n, a)
    decreases b
  {
    if b == 0 {
      OrSame(n);
    } else if a == 0 {
      OrClearedAll(n, b);
    } else {
      ClearBitsHalf(n, a);
      ClearBitsHalf(n, b);
      OrCleared(n / 2, a - 1, b - 1);
      OrDouble(ClearBits(n / 2, a - 1), ClearBits(n / 2, b - 1));
    }
  }

  lemma {:induction false} OrClearedAll(n: nat, b: nat)
    ensures Or(n, ClearBits(n, b)) == n
    decreases b
  {
    if b == 0 {
      OrSame(n);
    } else {
      ClearBitsHalf(n, b);
      OrClearedAll(n / 2, b - 1);
      var c := ClearBits(n / 2, b - 1);
      if n == 0 {
        ShrSmall(0, b);
        ShlZero(b);
      } else {
        assert Or(n, 2 * c) == 2 * Or(n / 2, (2 * c) / 2) + n % 2;
      }
    }
  }

  /** The bits of x from h up, with bit h set, are those of n when n's tree of height h holds x. */
  lemma {:induction false} OrTree(n: nat, x: nat, h: nat)
    requires Shr(n, h) == Shr(x, h) + 1 && Bit(n, h)
    ensures Or(ClearBits(x, h), Pow2(h)) == ClearBits(n, h)
    decreases h
  {
    if h == 0 {
      assert Or(x, 1) == 2 * Or(x / 2, 0) + 1;
      OrSymmetric(x / 2, 0);
      OrZero(x / 2);
    } else {
      ClearBitsHalf(x, h);
      ClearBitsHalf(n, h);
      ShrFront(x, h);
      ShrFront(n, h);
      OrTree(n / 2, x / 2, h - 1);
      OrDouble(ClearBits(x / 2, h - 1), Pow2(h - 1));
    }
  }
}
