/** How proofs grow while one leaf is added to a forest of n leaves: trees of equal height merge
    from row 0 upwards, as in a binary counter. */
module Carry {
  import opened Bits
  import opened Types
  import opened Forest

  /** The low g bits of n are ones, so the new leaf has been merged up to row g. */
  predicate LowOnes(n: nat, g: nat) {
    Shr(n + 1, g) == Shr(n, g) + 1
  }

  /** The length of leaf x's proof when the new leaf n has been merged up to row g. */
  function CarryHeight(n: nat, g: nat, x: nat): (h: nat)
    requires x <= n && LowOnes(n, g)
    ensures Shr(x, h) < Shr(n + 1, h)
  {
    if Shr(x, g) == Shr(n, g) then g
    else
      ShrMonotone(n, n + 1, TreeHeight(n, x));
      TreeHeight(n, x)
  }

  function CarryProof(full: seq<Hash>, n: nat, g: nat, x: nat): (p: seq<Hash>)
    requires x <= n < |full| && LowOnes(n, g)
    ensures |p| == CarryHeight(n, g, x)
  {
    ShrMonotone(n + 1, |full|, CarryHeight(n, g, x));
    Proof(full, x, CarryHeight(n, g, x))
  }

  /** The proof of leaf x in the forest over the first n leaves of full. */
  function PrefixProof(full: seq<Hash>, n: nat, x: nat): (p: seq<Hash>)
    requires x < n <= |full|
    ensures |p| == TreeHeight(n, x)
    ensures n == |full| ==> p == FullProof(full, x)
  {
    ShrMonotone(n, |full|, TreeHeight(n, x));
    Proof(full, x, TreeHeight(n, x))
  }

  lemma {:induction false} LowOnesStep(n: nat, g: nat)
    requires LowOnes(n, g) && Bit(n, g)
    ensures LowOnes(n, g + 1)
  {}

  /** The new leaf's subtree in row g covers the last 2^g leaves, the tree it meets the 2^g before. */
  lemma {:induction false} CarryRange(n: nat, g: nat, x: nat)
    requires LowOnes(n, g) && x <= n
    ensures Pow2(g) <= n + 1
    ensures Shr(x, g) == Shr(n, g) <==> x >= n + 1 - Pow2(g)
    ensures Bit(n, g) ==> 2 * Pow2(g) <= n + 1
    ensures Bit(n, g) ==> (Shr(x, g) == Shr(n, g) - 1 <==> n + 1 - 2 * Pow2(g) <= x < n + 1 - Pow2(g))
  {
    var k := Shr(n, g);
    ShrRange(n + 1, g, k + 1);
    ShrRange(n, g, k);
    ShrRange(x, g, k);
    ShrMonotone(x, n, g);
    if Bit(n, g) { ShrRange(x, g, k - 1); }
  }

  lemma {:induction false} CarryHeightStep(n: nat, g: nat, x: nat)
    requires LowOnes(n, g) && Bit(n, g) && x <= n
    ensures LowOnes(n, g + 1)
    ensures Shr(n, g) - 1 <= Shr(x, g) ==> CarryHeight(n, g, x) == g && CarryHeight(n, g + 1, x) == g + 1
    ensures Shr(x, g) < Shr(n, g) - 1 ==> CarryHeight(n, g + 1, x) == CarryHeight(n, g, x)
  {
    ShrMonotone(x, n, g);
    if Shr(x, g) == Shr(n, g) - 1 { TreeHeightUnique(n, x, g); }
  }

  /** Merging two trees of row g appends each root to the proofs under the other. */
  lemma {:induction false} CarryProofStep(full: seq<Hash>, n: nat, g: nat, x: nat)
    requires LowOnes(n, g) && Bit(n, g) && x <= n < |full|
    ensures LowOnes(n, g + 1) && Shr(n, g) < Shr(|full|, g)
    ensures Shr(x, g) == Shr(n, g) ==>
              CarryProof(full, n, g + 1, x) == CarryProof(full, n, g, x) + [Sub(full, g, Shr(n, g) - 1)]
    ensures Shr(x, g) == Shr(n, g) - 1 ==>
              CarryProof(full, n, g + 1, x) == CarryProof(full, n, g, x) + [Sub(full, g, Shr(n, g))]
    ensures Shr(x, g) < Shr(n, g) - 1 ==> CarryProof(full, n, g + 1, x) == CarryProof(full, n, g, x)
  {
    CarryHeightStep(n, g, x);
    ShrMonotone(n + 1, |full|, g);
  }

  /** When row g is free the new tree is stored there and every proof is complete. */
  lemma {:induction false} CarryProofDone(full: seq<Hash>, n: nat, g: nat, x: nat)
    requires LowOnes(n, g) && !Bit(n, g) && x <= n < |full|
    ensures CarryProof(full, n, g, x) == PrefixProof(full, n + 1, x)
  {
    ShrMonotone(x, n, g);
    if Shr(x, g) == Shr(n, g) {
      TreeHeightUnique(n + 1, x, g);
    } else {
      var t := TreeHeight(n, x);
      if t <= g {
        if t < g {
          ShrEqualAbove(n, x, t + 1, g);
          assert false;
        }
      } else {
        assert Shr(n, g + 1) == Shr(n + 1, g + 1);
        ShrEqualAbove(n, n + 1, g + 1, t);
        ShrEqualAbove(n, n + 1, g + 1, t + 1);
        TreeHeightUnique(n + 1, x, t);
      }
    }
  }

  lemma {:induction false} CarryProofStart(full: seq<Hash>, n: nat, x: nat)
    requires x <= n < |full|
    ensures LowOnes(n, 0)
    ensures CarryProof(full, n, 0, x) == if x == n then [] else PrefixProof(full, n, x)
  {}

  /** The stored roots stay right when the new tree goes into the free row g. */
  lemma {:induction false} RootsStored(trees: seq<Hash>, n: nat, ls: seq<Hash>, g: nat)
    requires Roots(trees, n, ls) && n + 1 <= |ls| && n + 1 < MAX_LEAVES
    requires LowOnes(n, g) && !Bit(n, g) && g < 64
    ensures Shr(n, g) < Shr(|ls|, g)
    ensures Roots(trees[g := Sub(ls, g, Shr(n, g))], n + 1, ls)
  {
    ShrMonotone(n + 1, |ls|, g);
    forall h | 0 <= h < 64 && Bit(n + 1, h)
      ensures Shr(n + 1, h) - 1 < Shr(|ls|, h)
      ensures trees[g := Sub(ls, g, Shr(n, g))][h] == Sub(ls, h, Shr(n + 1, h) - 1)
    {
      ShrMonotone(n + 1, |ls|, h);
      if h < g {
        LowBitsClear(n, g, h);
        assert false;
      } else if h > g {
        ShrEqualAbove(n, n + 1, g + 1, h);
      }
    }
  }

  lemma {:induction false} LowBitsClear(n: nat, g: nat, h: nat)
    requires LowOnes(n, g) && h < g
    ensures Bit(n, h) && !Bit(n + 1, h)
    decreases g
  {
    ShrMonotone(n, n + 1, g - 1);
    ShrStep(n, g - 1);
    if h < g - 1 { LowBitsClear(n, g - 1, h); }
  }

  lemma {:induction false} ShrStep(n: nat, h: nat)
    ensures Shr(n + 1, h) <= Shr(n, h) + 1
  {
    if h > 0 { ShrStep(n, h - 1); }
  }

  // ---- What the old trees' proofs gain ----

  lemma {:induction false} TreeStartLemma(n: nat, b: nat)
    requires Bit(n, b)
    ensures var s := ClearBits(n, b + 1); s < n && Shr(s, b) == Shr(n, b) - 1 && TreeHeight(n, s) == b
  {
    var k := Shr(n, b + 1);
    ShlFront(k, b + 1);
    ShrShl(2 * k, b);
    ShrShl(k, b + 1);
    ShrRange(n, b, 2 * k);
    TreeHeightUnique(n, ClearBits(n, b + 1), b);
  }

  /** The first leaf of the tree at height b, of n leaves. */
  function TreeStart(n: nat, b: nat): (s: nat)
    requires Bit(n, b)
    ensures s < n && Shr(s, b) == Shr(n, b) - 1 && TreeHeight(n, s) == b
  {
    TreeStartLemma(n, b);
    ClearBits(n, b + 1)
  }

  /** Adding leaves never shortens the path of a leaf. */
  lemma {:induction false} TreeHeightGrows(n0: nat, n: nat, x: nat)
    requires x < n0 <= n
    ensures TreeHeight(n0, x) <= TreeHeight(n, x)
  {
    var b, t := TreeHeight(n0, x), TreeHeight(n, x);
    if t < b {
      ShrEqualAbove(n, x, t + 1, b);
      ShrMonotone(n0, n, b);
      assert false;
    }
  }

  lemma {:induction false} CarryHeightGrows(n0: nat, n: nat, g: nat, x: nat)
    requires x < n0 <= n && LowOnes(n, g)
    ensures TreeHeight(n0, x) <= CarryHeight(n, g, x)
  {
    var b := TreeHeight(n0, x);
    if Shr(x, g) == Shr(n, g) {
      if g < b {
        ShrEqualAbove(n, x, g, b);
        ShrMonotone(n0, n, b);
        assert false;
      }
    } else {
      TreeHeightGrows(n0, n, x);
    }
  }

  /** What the tree at height b of the first n0 leaves has gained while leaf n is merged up to row g. */
  function CarryGrowth(full: seq<Hash>, n0: nat, n: nat, g: nat, b: nat): seq<Hash>
    requires Bit(n0, b) && n0 <= n < |full| && LowOnes(n, g)
  {
    CarryHeightGrows(n0, n, g, TreeStart(n0, b));
    CarryProof(full, n, g, TreeStart(n0, b))[b..]
  }

  function Growth(full: seq<Hash>, n0: nat, n: nat, b: nat): seq<Hash>
    requires Bit(n0, b) && n0 <= n <= |full|
  {
    TreeHeightGrows(n0, n, TreeStart(n0, b));
    PrefixProof(full, n, TreeStart(n0, b))[b..]
  }

  /** Every leaf of an old tree gains the same suffix. */
  lemma {:induction false} GrowthExtends(full: seq<Hash>, n0: nat, n: nat, x: nat)
    requires x < n0 <= n <= |full|
    ensures PrefixProof(full, n, x) == PrefixProof(full, n0, x) + Growth(full, n0, n, TreeHeight(n0, x))
  {
    var b := TreeHeight(n0, x);
    var s := TreeStart(n0, b);
    TreeHeightGrows(n0, n, x);
    TreeHeightGrows(n0, n, s);
    var t := TreeHeight(n, x);
    ShrEqualAbove(s, x, b, t);
    ShrEqualAbove(s, x, b, t + 1);
    TreeHeightUnique(n, s, t);
    ShrMonotone(n, |full|, t);
    ProofPrefix(full, x, t, b);
    ProofSuffix(full, x, s, t, b);
    var p := PrefixProof(full, n, x);
    assert p == p[..b] + p[b..];
  }

  lemma {:induction false} CarryGrowthStart(full: seq<Hash>, n0: nat, n: nat, b: nat)
    requires Bit(n0, b) && n0 <= n < |full|
    ensures LowOnes(n, 0) && CarryGrowth(full, n0, n, 0, b) == Growth(full, n0, n, b)
  {
    CarryProofStart(full, n, TreeStart(n0, b));
  }

  lemma {:induction false} CarryGrowthDone(full: seq<Hash>, n0: nat, n: nat, g: nat, b: nat)
    requires Bit(n0, b) && n0 <= n < |full| && LowOnes(n, g) && !Bit(n, g)
    ensures CarryGrowth(full, n0, n, g, b) == Growth(full, n0, n + 1, b)
  {
    CarryProofDone(full, n, g, TreeStart(n0, b));
  }

  /** The comparison of tree starts in addLeaves finds the trees on either side of a merge. */
  lemma {:induction false} CarryGrowthStep(full: seq<Hash>, n0: nat, n: nat, g: nat, b: nat)
    requires Bit(n0, b) && n0 <= n < |full| && LowOnes(n, g) && Bit(n, g)
    ensures LowOnes(n, g + 1) && Shr(n, g) < Shr(|full|, g) && 2 * Pow2(g) <= n + 1
    ensures CarryGrowth(full, n0, n, g + 1, b) == CarryGrowth(full, n0, n, g, b) +
              if TreeStart(n0, b) >= n + 1 - Pow2(g) then [Sub(full, g, Shr(n, g) - 1)]
              else if TreeStart(n0, b) >= n + 1 - 2 * Pow2(g) then [Sub(full, g, Shr(n, g))]
              else []
  {
    var s := TreeStart(n0, b);
    CarryProofStep(full, n, g, s);
    CarryRange(n, g, s);
    ShrMonotone(s, n, g);
    CarryHeightGrows(n0, n, g, s);
  }
}
