/** The forest of perfect Merkle trees over a list of leaf hashes, defined directly from the list:
    this is the reference that the accumulator's incremental updates are measured against. */
module Forest {
  import opened Bits
  import opened Types

  /** The root of the subtree in row h, column k: leaves [k << h, (k+1) << h). */
  function Sub(ls: seq<Hash>, h: nat, k: nat): Hash
    requires k < Shr(|ls|, h)
  {
    if h == 0 then ls[k] else PairHash(Sub(ls, h - 1, 2 * k), Sub(ls, h - 1, 2 * k + 1))
  }

  function Sibling(k: nat): nat {
    if k % 2 == 0 then k + 1 else k - 1
  }

  /** The audit path of leaf i up to row h: the siblings of its ancestors, lowest first. */
  function Proof(ls: seq<Hash>, i: nat, h: nat): (p: seq<Hash>)
    requires Shr(i, h) < Shr(|ls|, h)
    ensures |p| == h
  {
    if h == 0 then [] else Proof(ls, i, h - 1) + [Sub(ls, h - 1, Sibling(Shr(i, h - 1)))]
  }

  /** The height of the tree that holds leaf i when there are n leaves. */
  function TreeHeight(n: nat, i: nat): (h: nat)
    requires i < n
    ensures Shr(n, h) == Shr(i, h) + 1 && Bit(n, h) && Shr(n, h + 1) == Shr(i, h + 1)
  {
    XorZero(n, i);
    var m := MergeHeight(n, i);
    MergeHeightIff(n, i, m);
    MergeHeightIff(n, i, m - 1);
    ShrMonotone(i, n, m - 1);
    m - 1
  }

  /** The proof of leaf i in the forest over ls. */
  function FullProof(ls: seq<Hash>, i: nat): (p: seq<Hash>)
    requires i < |ls|
    ensures |p| == TreeHeight(|ls|, i)
  {
    Proof(ls, i, TreeHeight(|ls|, i))
  }

  /** Every leaf hash commits its own position, as elementLeaf.hash does. */
  predicate Indexed(ls: seq<Hash>) {
    forall i :: 0 <= i < |ls| ==> ls[i].LeafHash? && ls[i].index == i
  }

  /** trees holds the root of every perfect tree over the first n leaves of ls. */
  ghost predicate Roots(trees: seq<Hash>, n: nat, ls: seq<Hash>) {
    && |trees| == 64
    && n <= |ls| && n < MAX_LEAVES
    && forall h {:trigger trees[h]} :: 0 <= h < 64 && Bit(n, h) ==>
          Shr(n, h) - 1 < Shr(|ls|, h) && trees[h] == Sub(ls, h, Shr(n, h) - 1)
  }

  function ProofRoot(leaf: Hash, index: nat, proof: seq<Hash>): Hash {
    if proof == [] then leaf
    else
      var h := |proof| - 1;
      var r := ProofRoot(leaf, index, proof[..h]);
      if Bit(index, h) then PairHash(proof[h], r) else PairHash(r, proof[h])
  }

  /** The loop of proofRoot. */
  method ComputeProofRoot(leaf: Hash, index: nat, proof: seq<Hash>) returns (root: Hash)
    ensures root == ProofRoot(leaf, index, proof)
  {
    root := leaf;
    for i := 0 to |proof|
      invariant root == ProofRoot(leaf, index, proof[..i])
    {
      assert proof[..i + 1][..i] == proof[..i];
      if !Bit(index, i) {
        root := PairHash(root, proof[i]);
      } else {
        root := PairHash(proof[i], root);
      }
    }
    assert proof[..|proof|] == proof;
  }

  function Contains(trees: seq<Hash>, n: nat, leaf: Hash, index: nat, proof: seq<Hash>): bool
    requires |trees| == 64
  {
    |proof| < 64 && Bit(n, |proof|) && trees[|proof|] == ProofRoot(leaf, index, proof)
  }

  // ---- Subtrees depend only on the leaves below them ----

  lemma {:induction false} SubAgree(ls: seq<Hash>, ls': seq<Hash>, h: nat, k: nat)
    requires k < Shr(|ls|, h) && k < Shr(|ls'|, h)
    requires forall x :: 0 <= x < |ls| && x < |ls'| && Shr(x, h) == k ==> ls[x] == ls'[x]
    ensures Sub(ls, h, k) == Sub(ls', h, k)
  {
    if h > 0 {
      SubAgree(ls, ls', h - 1, 2 * k);
      SubAgree(ls, ls', h - 1, 2 * k + 1);
    }
  }

  /** Appending leaves changes no existing subtree. */
  lemma {:induction false} SubExtend(ls: seq<Hash>, more: seq<Hash>, h: nat, k: nat)
    requires k < Shr(|ls|, h)
    ensures k < Shr(|ls + more|, h) && Sub(ls, h, k) == Sub(ls + more, h, k)
  {
    ShrMonotone(|ls|, |ls + more|, h);
    SubAgree(ls, ls + more, h, k);
  }

  lemma {:induction false} ProofExtend(ls: seq<Hash>, more: seq<Hash>, i: nat, h: nat)
    requires Shr(i, h) < Shr(|ls|, h)
    ensures Shr(i, h) < Shr(|ls + more|, h) && Proof(ls, i, h) == Proof(ls + more, i, h)
  {
    ShrMonotone(|ls|, |ls + more|, h);
    if h > 0 {
      ProofExtend(ls, more, i, h - 1);
      SubExtend(ls, more, h - 1, Sibling(Shr(i, h - 1)));
    }
  }

  lemma {:induction false} CoveredBelow(n: nat, i: nat, g: nat, h: nat)
    requires g <= h && Shr(i, h) < Shr(n, h)
    ensures Shr(i, g) < Shr(n, g)
    decreases h - g
  {
    if g < h { CoveredBelow(n, i, g + 1, h); }
  }

  lemma {:induction false} ProofAt(ls: seq<Hash>, i: nat, h: nat, g: nat)
    requires Shr(i, h) < Shr(|ls|, h) && g < h
    ensures Shr(i, g + 1) < Shr(|ls|, g + 1) && Sibling(Shr(i, g)) < Shr(|ls|, g)
    ensures Proof(ls, i, h)[g] == Sub(ls, g, Sibling(Shr(i, g)))
  {
    CoveredBelow(|ls|, i, g + 1, h);
    if g + 1 < h { ProofAt(ls, i, h - 1, g); }
  }

  lemma {:induction false} ProofPrefix(ls: seq<Hash>, i: nat, h: nat, g: nat)
    requires Shr(i, h) < Shr(|ls|, h) && g <= h
    ensures Shr(i, g) < Shr(|ls|, g) && Proof(ls, i, h)[..g] == Proof(ls, i, g)
  {
    CoveredBelow(|ls|, i, g, h);
    if g < h {
      ProofPrefix(ls, i, h - 1, g);
      assert Proof(ls, i, h)[..g] == Proof(ls, i, h - 1)[..g];
    }
  }

  /** Leaves that share a column in row g share the rest of their path. */
  lemma {:induction false} ProofSuffix(ls: seq<Hash>, i: nat, j: nat, h: nat, g: nat)
    requires g <= h && Shr(i, g) == Shr(j, g) && Shr(i, h) < Shr(|ls|, h)
    ensures Shr(j, h) == Shr(i, h) && Proof(ls, i, h)[g..] == Proof(ls, j, h)[g..]
  {
    ShrEqualAbove(i, j, g, h);
    forall x | g <= x < h
      ensures Proof(ls, i, h)[x] == Proof(ls, j, h)[x]
    {
      ShrEqualAbove(i, j, g, x);
      ProofAt(ls, i, h, x);
      ProofAt(ls, j, h, x);
    }
    assert forall x :: 0 <= x < h - g ==> Proof(ls, i, h)[g..][x] == Proof(ls, j, h)[g + x];
  }

  // ---- Membership ----

  lemma {:induction false} ProofRootOfProof(ls: seq<Hash>, i: nat, h: nat)
    requires Shr(i, h) < Shr(|ls|, h)
    ensures i < |ls| && ProofRoot(ls[i], i, Proof(ls, i, h)) == Sub(ls, h, Shr(i, h))
  {
    CoveredBelow(|ls|, i, 0, h);
    if h > 0 {
      ProofRootOfProof(ls, i, h - 1);
      var p := Proof(ls, i, h);
      assert p[..h - 1] == Proof(ls, i, h - 1);
      var r := ProofRoot(ls[i], i, p[..h - 1]);
      assert ProofRoot(ls[i], i, p) == if Bit(i, h - 1) then PairHash(p[h - 1], r) else PairHash(r, p[h - 1]);
    }
  }

  /** A proof that leads to a subtree's root can only be the audit path of a leaf of that subtree. */
  lemma {:induction false} ProofRootUnique(ls: seq<Hash>, leaf: Hash, proof: seq<Hash>, k: nat)
    requires Indexed(ls) && leaf.LeafHash? && k < Shr(|ls|, |proof|)
    requires ProofRoot(leaf, leaf.index, proof) == Sub(ls, |proof|, k)
    ensures leaf.index < |ls| && ls[leaf.index] == leaf && Shr(leaf.index, |proof|) == k
    ensures proof == Proof(ls, leaf.index, |proof|)
    decreases |proof|
  {
    if |proof| > 0 {
      var h := |proof| - 1;
      ProofRootUnique(ls, leaf, proof[..h], if Bit(leaf.index, h) then 2 * k + 1 else 2 * k);
      assert proof == proof[..h] + [proof[h]];
    }
  }

  /** The height of the tree of a leaf is the only one with these columns. */
  lemma {:induction false} TreeHeightUnique(n: nat, i: nat, h: nat)
    requires i < n && Shr(n, h) == Shr(i, h) + 1 && Shr(n, h + 1) == Shr(i, h + 1)
    ensures TreeHeight(n, i) == h
  {
    MergeHeightIff(n, i, h);
    MergeHeightIff(n, i, h + 1);
  }

  /** containsLeaf accepts a leaf with a proof exactly when the abstract leaf list holds that element
      and flag at that position and the proof is its audit path: no other proof, of any length. */
  lemma {:induction false} ContainsIff(trees: seq<Hash>, ls: seq<Hash>, leaf: Hash, proof: seq<Hash>)
    requires Roots(trees, |ls|, ls) && Indexed(ls) && leaf.LeafHash?
    ensures Contains(trees, |ls|, leaf, leaf.index, proof)
       <==> leaf.index < |ls| && ls[leaf.index] == leaf && proof == FullProof(ls, leaf.index)
  {
    var n, i := |ls|, leaf.index;
    if Contains(trees, n, leaf, i, proof) {
      ProofRootUnique(ls, leaf, proof, Shr(n, |proof|) - 1);
      TreeHeightUnique(n, i, |proof|);
    }
    if i < n && ls[i] == leaf && proof == FullProof(ls, i) {
      var h := TreeHeight(n, i);
      ProofRootOfProof(ls, i, h);
      if h >= 64 {
        TopRowFree(n, h);
        assert false;
      }
    }
  }
}
