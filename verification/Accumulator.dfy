/** ElementAccumulator: the stored tree roots, and the Merkle proofs of the elements that blocks
    update and add, rewritten in place. */
module Accumulator {
  import opened Bits
  import opened Types
  import opened Forest
  import opened Carry
  import opened Elements
  import opened Paths
  import opened Update

  /** Appends h to the proofs of leaves from, from-1, ... down to (not including) stop. */
  method AppendBackwards(leaves: seq<ElementLeaf>, from: int, stop: int, h: Types.Hash) returns (j: int)
    requires Distinct(leaves) && -1 <= from < |leaves|
    modifies States(leaves)`merkleProof
    ensures j == if stop >= from then from else if stop >= 0 then stop else -1
    ensures forall x :: 0 <= x < |leaves| ==>
              leaves[x].se.merkleProof == old(leaves[x].se.merkleProof) + (if j < x <= from then [h] else [])
  {
    j := from;
    while j > stop && j >= 0
      invariant -1 <= j <= from && (stop < from ==> stop <= j)
      invariant stop >= from ==> j == from
      invariant forall x :: 0 <= x < |leaves| ==>
                  leaves[x].se.merkleProof == old(leaves[x].se.merkleProof) + (if j < x <= from then [h] else [])
    {
      leaves[j].se.merkleProof := leaves[j].se.merkleProof + [h];
      j := j - 1;
    }
  }

  // ---- addLeaves ----

  /** The hashes of the leaves at the positions they are given when n leaves are present. */
  ghost function NewHashes(leaves: seq<ElementLeaf>, n: nat): seq<Types.Hash> {
    seq(|leaves|, j requires 0 <= j < |leaves| => LeafHash(leaves[j].element, n + j, leaves[j].spent))
  }

  lemma {:induction false} RootsExtend(trees: seq<Types.Hash>, ls: seq<Types.Hash>, more: seq<Types.Hash>)
    requires Roots(trees, |ls|, ls)
    ensures Roots(trees, |ls|, ls + more)
  {
    forall h | 0 <= h < 64 && Bit(|ls|, h)
      ensures Shr(|ls|, h) - 1 < Shr(|ls + more|, h) && trees[h] == Sub(ls + more, h, Shr(|ls|, h) - 1)
    {
      SubExtend(ls, more, h, Shr(|ls|, h) - 1);
    }
  }

  /** treeGrowth: what the proofs under each initial tree have gained when n leaves are present. */
  ghost function GrowthSeq(full: seq<Types.Hash>, n0: nat, n: nat): seq<seq<Types.Hash>>
    requires n0 <= n <= |full|
  {
    seq(64, b requires 0 <= b => if Bit(n0, b) then Growth(full, n0, n, b) else [])
  }

  ghost function CarryGrowthSeq(full: seq<Types.Hash>, n0: nat, n: nat, g: nat): seq<seq<Types.Hash>>
    requires n0 <= n < |full| && LowOnes(n, g)
  {
    seq(64, b requires 0 <= b => if Bit(n0, b) then CarryGrowth(full, n0, n, g, b) else [])
  }

  /** The proofs of the added leaves, behind what each held before, when count have been added. */
  ghost function AddedProofs(was: seq<seq<Types.Hash>>, full: seq<Types.Hash>, n0: nat,
                             count: nat): seq<seq<Types.Hash>>
    requires n0 + count <= |full|
  {
    seq(|was|, j requires 0 <= j < |was| =>
      was[j] + if j < count then PrefixProof(full, n0 + count, n0 + j) else [])
  }

  ghost function CarryProofs(was: seq<seq<Types.Hash>>, full: seq<Types.Hash>, n0: nat, i: nat,
                             g: nat): seq<seq<Types.Hash>>
    requires n0 + i < |full| && LowOnes(n0 + i, g)
  {
    seq(|was|, j requires 0 <= j < |was| =>
      was[j] + if j <= i then CarryProof(full, n0 + i, g, n0 + j) else [])
  }

  /** What the proof of leaf x gains when the new leaf i is merged in row g. */
  function MergeGain(i: nat, g: nat, oldRoot: Types.Hash, h: Types.Hash, x: nat): seq<Types.Hash> {
    if x > i then []
    else if x > i - Pow2(g) then [oldRoot]
    else if x > i - Pow2(g + 1) then [h]
    else []
  }

  lemma {:induction false} CarryStart(was: seq<seq<Types.Hash>>, full: seq<Types.Hash>, n0: nat, i: nat)
    requires n0 + i < |full|
    ensures LowOnes(n0 + i, 0)
    ensures CarryProofs(was, full, n0, i, 0) == AddedProofs(was, full, n0, i)
    ensures CarryGrowthSeq(full, n0, n0 + i, 0) == GrowthSeq(full, n0, n0 + i)
  {
    forall j | 0 <= j < |was|
      ensures CarryProofs(was, full, n0, i, 0)[j] == AddedProofs(was, full, n0, i)[j]
    {
      if j <= i { CarryProofStart(full, n0 + i, n0 + j); }
    }
    var cg, gs := CarryGrowthSeq(full, n0, n0 + i, 0), GrowthSeq(full, n0, n0 + i);
    forall b | 0 <= b < 64
      ensures cg[b] == gs[b]
    {
      if Bit(n0, b) { CarryGrowthStart(full, n0, n0 + i, b); }
    }
  }

  lemma {:induction false} CarryEnd(was: seq<seq<Types.Hash>>, full: seq<Types.Hash>, n0: nat, i: nat, g: nat)
    requires n0 + i < |full| && LowOnes(n0 + i, g) && !Bit(n0 + i, g)
    ensures CarryProofs(was, full, n0, i, g) == AddedProofs(was, full, n0, i + 1)
    ensures CarryGrowthSeq(full, n0, n0 + i, g) == GrowthSeq(full, n0, n0 + i + 1)
  {
    hide Sub, Shr, Proof;
    forall j | 0 <= j < |was|
      ensures CarryProofs(was, full, n0, i, g)[j] == AddedProofs(was, full, n0, i + 1)[j]
    {
      if j <= i { CarryProofDone(full, n0 + i, g, n0 + j); }
    }
    var cg, gs := CarryGrowthSeq(full, n0, n0 + i, g), GrowthSeq(full, n0, n0 + i + 1);
    forall b | 0 <= b < 64
      ensures cg[b] == gs[b]
    {
      if Bit(n0, b) { CarryGrowthDone(full, n0, n0 + i, g, b); }
    }
  }

  lemma {:induction false} CarryProofsStep(was: seq<seq<Types.Hash>>, full: seq<Types.Hash>, n0: nat, i: nat, g: nat,
                                           x: nat)
    requires n0 + i < |full| && LowOnes(n0 + i, g) && Bit(n0 + i, g) && x < |was|
    ensures LowOnes(n0 + i, g + 1) && Shr(n0 + i, g) < Shr(|full|, g)
    ensures CarryProofs(was, full, n0, i, g + 1)[x] == CarryProofs(was, full, n0, i, g)[x] +
              MergeGain(i, g, Sub(full, g, Shr(n0 + i, g) - 1), Sub(full, g, Shr(n0 + i, g)), x)
  {
    hide Proof, Bit;
    var n, y := n0 + i, n0 + x;
    LowOnesStep(n, g);
    ShrMonotone(n + 1, |full|, g);
    if x <= i {
      CarryProofStep(full, n, g, y);
      CarryRange(n, g, y);
      ShrMonotone(y, n, g);
    }
  }

  lemma {:induction false} AddedNone(was: seq<seq<Types.Hash>>, full: seq<Types.Hash>, n0: nat)
    requires n0 <= |full|
    ensures AddedProofs(was, full, n0, 0) == was
    ensures GrowthSeq(full, n0, n0) == seq(64, _ => [])
  {
    forall j | 0 <= j < |was|
      ensures AddedProofs(was, full, n0, 0)[j] == was[j]
    {
      assert was[j] + [] == was[j];
    }
    var gs := GrowthSeq(full, n0, n0);
    forall b | 0 <= b < 64
      ensures gs[b] == []
    {
      if Bit(n0, b) { assert |PrefixProof(full, n0, TreeStart(n0, b))| == b; }
    }
  }

  /** Records the roots of a merge in row g for every initial tree on either side of it. */
  method GrowTrees(growth: seq<seq<Types.Hash>>, n0: nat, n: nat, g: nat, oldRoot: Types.Hash, h: Types.Hash,
                   ghost full: seq<Types.Hash>)
    returns (grown: seq<seq<Types.Hash>>)
    requires n0 <= n < |full| && LowOnes(n, g) && Bit(n, g)
    requires Shr(n, g) < Shr(|full|, g) && oldRoot == Sub(full, g, Shr(n, g) - 1) && h == Sub(full, g, Shr(n, g))
    requires growth == CarryGrowthSeq(full, n0, n, g)
    ensures LowOnes(n, g + 1) && grown == CarryGrowthSeq(full, n0, n, g + 1)
  {
    hide Sub;
    CarryRange(n, g, n);
    var curTreeIndex := n + 1 - Pow2(g);
    var prevTreeIndex := n + 1 - Pow2(g + 1);
    LowOnesStep(n, g);
    grown := growth;
    ghost var target := CarryGrowthSeq(full, n0, n, g + 1);
    for bit := 0 to 64
      invariant |grown| == 64
      invariant forall b :: bit <= b < 64 ==> grown[b] == growth[b]
      invariant forall b :: 0 <= b < bit ==> grown[b] == target[b]
    {
      if !Bit(n0, bit) {
        continue;
      }
      CarryGrowthStep(full, n0, n, g, bit);
      var treeStartIndex := ClearBits(n0, bit + 1);
      if treeStartIndex >= curTreeIndex {
        grown := grown[bit := grown[bit] + [oldRoot]];
      } else if treeStartIndex >= prevTreeIndex {
        grown := grown[bit := grown[bit] + [h]];
      }
    }
  }

  /** Appends each root of a merge in row g to the added leaves' proofs under the other tree. */
  method MergeProofs(leaves: seq<ElementLeaf>, i: nat, g: nat, oldRoot: Types.Hash, h: Types.Hash)
    requires Distinct(leaves) && i < |leaves|
    modifies States(leaves)`merkleProof
    ensures forall x :: 0 <= x < |leaves| ==>
              leaves[x].se.merkleProof == old(leaves[x].se.merkleProof) + MergeGain(i, g, oldRoot, h, x)
  {
    var startOfNewTree := i - Pow2(g);
    var startOfOldTree := i - Pow2(g + 1);
    var j := AppendBackwards(leaves, i, startOfNewTree, oldRoot);
    var k := AppendBackwards(leaves, j, startOfOldTree, h);
  }

  lemma {:induction false} MergedRoot(full: seq<Types.Hash>, n: nat, g: nat)
    requires n < |full| && Bit(n, g) && LowOnes(n, g + 1) && Shr(n, g) < Shr(|full|, g)
    ensures Shr(n, g + 1) < Shr(|full|, g + 1)
    ensures Sub(full, g + 1, Shr(n, g + 1)) == PairHash(Sub(full, g, Shr(n, g) - 1), Sub(full, g, Shr(n, g)))
  {
    ShrMonotone(n + 1, |full|, g + 1);
  }

  /** Merges the new leaf's tree h with the tree oldRoot in row g. */
  method MergeRow(leaves: seq<ElementLeaf>, i: nat, n0: nat, g: nat, oldRoot: Types.Hash, h: Types.Hash,
                  growth: seq<seq<Types.Hash>>, ghost was: seq<seq<Types.Hash>>, ghost full: seq<Types.Hash>)
    returns (merged: Types.Hash, grown: seq<seq<Types.Hash>>)
    requires Distinct(leaves) && i < |leaves| == |was|
    requires n0 + i < |full| && LowOnes(n0 + i, g) && Bit(n0 + i, g) && Shr(n0 + i, g) < Shr(|full|, g)
    requires oldRoot == Sub(full, g, Shr(n0 + i, g) - 1) && h == Sub(full, g, Shr(n0 + i, g))
    requires Holding(leaves, CarryProofs(was, full, n0, i, g))
    requires growth == CarryGrowthSeq(full, n0, n0 + i, g)
    modifies States(leaves)`merkleProof
    ensures LowOnes(n0 + i, g + 1) && Shr(n0 + i, g + 1) < Shr(|full|, g + 1)
    ensures merged == Sub(full, g + 1, Shr(n0 + i, g + 1))
    ensures Holding(leaves, CarryProofs(was, full, n0, i, g + 1))
    ensures grown == CarryGrowthSeq(full, n0, n0 + i, g + 1)
  {
    hide Sub, CarryProof, CarryGrowthSeq;
    MergeProofs(leaves, i, g, oldRoot, h);
    grown := GrowTrees(growth, n0, n0 + i, g, oldRoot, h, full);
    ghost var before, after := CarryProofs(was, full, n0, i, g), CarryProofs(was, full, n0, i, g + 1);
    forall x | 0 <= x < |leaves|
      ensures after[x] == before[x] + MergeGain(i, g, oldRoot, h, x)
    {
      CarryProofsStep(was, full, n0, i, g, x);
    }
    MergedRoot(full, n0 + i, g);
    merged := PairHash(oldRoot, h);
  }

  /** Walks up the forest from row 0, merging trees of the same height, to the first free row. */
  method MergeUp(trees: seq<Types.Hash>, leaves: seq<ElementLeaf>, i: nat, n0: nat, leaf: Types.Hash,
                 growth: seq<seq<Types.Hash>>, ghost was: seq<seq<Types.Hash>>, ghost full: seq<Types.Hash>)
    returns (height: nat, h: Types.Hash, grown: seq<seq<Types.Hash>>)
    requires Distinct(leaves) && i < |leaves| == |was|
    requires n0 + i < |full| < MAX_LEAVES && Roots(trees, n0 + i, full) && full[n0 + i] == leaf
    requires Holding(leaves, AddedProofs(was, full, n0, i))
    requires growth == GrowthSeq(full, n0, n0 + i)
    modifies States(leaves)`merkleProof
    ensures height < 64 && !Bit(n0 + i, height) && LowOnes(n0 + i, height)
    ensures Shr(n0 + i, height) < Shr(|full|, height) && h == Sub(full, height, Shr(n0 + i, height))
    ensures Holding(leaves, AddedProofs(was, full, n0, i + 1))
    ensures grown == GrowthSeq(full, n0, n0 + i + 1)
  {
    height, h, grown := 0, leaf, growth;
    CarryStart(was, full, n0, i);
    TopRowFree(n0 + i, 63);
    while Bit(n0 + i, height)
      invariant height < 64 && LowOnes(n0 + i, height)
      invariant Shr(n0 + i, height) < Shr(|full|, height) && h == Sub(full, height, Shr(n0 + i, height))
      invariant Holding(leaves, CarryProofs(was, full, n0, i, height))
      invariant grown == CarryGrowthSeq(full, n0, n0 + i, height)
      decreases 64 - height
    {
      h, grown := MergeRow(leaves, i, n0, height, trees[height], h, grown, was, full);
      height := height + 1;
    }
    CarryEnd(was, full, n0, i, height);
  }

  // ---- applyBlock and revertBlock ----

  datatype ApplyUpdate = ApplyUpdate(updated: seq<seq<ElementLeaf>>, treeGrowth: seq<seq<Types.Hash>>,
                                     oldNumLeaves: nat, numLeaves: nat)

  datatype RevertUpdate = RevertUpdate(updated: seq<seq<ElementLeaf>>, numLeaves: nat)

  /** Among the first n positions, the lists base and to differ only where a leaf of to is given; the
      leaves hold their proofs over to and are grouped by their tree among n leaves. */
  ghost predicate Moves(updated: seq<seq<ElementLeaf>>, leaves: seq<ElementLeaf>, n: nat,
                        base: seq<Types.Hash>, to: seq<Types.Hash>)
    reads States(leaves)
  {
    && n <= |base| && n <= |to| && n < MAX_LEAVES
    && Grouped(updated, leaves, n) && ProvenIn(leaves, to)
    && (forall l :: l in leaves ==> to[l.se.leafIndex] == l.Hash())
    && (forall y :: 0 <= y < n && base[y] != to[y] ==> exists l :: l in leaves && l.se.leafIndex == y)
  }

  lemma {:induction false} GroupRepairs(group: seq<ElementLeaf>, leaves: seq<ElementLeaf>, n: nat,
                                        base: seq<Types.Hash>, to: seq<Types.Hash>, x: nat, h: nat)
    requires x < n <= |base| && n <= |to| && (n == |base| || n == |to|)
    requires h == TreeHeight(n, x) && GroupAt(group, leaves, n, h) && ProvenIn(leaves, to)
    requires forall l :: l in leaves ==> to[l.se.leafIndex] == l.Hash()
    requires forall y :: 0 <= y < n && base[y] != to[y] ==> exists l :: l in leaves && l.se.leafIndex == y
    ensures Repairs(PathsOf(group), base, to, h, Shr(x, h))
  {
    var ups, k := PathsOf(group), Shr(x, h);
    ShrMonotone(n, |base|, h);
    ShrMonotone(n, |to|, h);
    forall q | 0 <= q < |ups|
      ensures Shr(ups[q].index, h) == k && h <= |ups[q].proof| && ups[q].proof[..h] == Proof(to, ups[q].index, h)
    {
      var y := ups[q].index;
      assert group[q] in group && TreeHeight(n, y) == h;
      TreeHeightGrows(n, |to|, y);
      ProofPrefix(to, y, TreeHeight(|to|, y), h);
    }
    forall y | 0 <= y < |base| && y < |to| && base[y] != to[y] && Shr(y, h) == k
      ensures HasIndex(ups, y)
    {
      TreeHeightUnique(n, y, h);
      var l :| l in leaves && l.se.leafIndex == y;
      assert l in group;
      var q :| 0 <= q < |group| && group[q] == l;
      assert ups[q].index == y;
    }
  }

  /** The root of a tree after an update: led to by any updated leaf, and otherwise unchanged. */
  lemma {:induction false} GroupRoot(group: seq<ElementLeaf>, leaves: seq<ElementLeaf>, ls: seq<Types.Hash>,
                                     to: seq<Types.Hash>, h: nat)
    requires GroupAt(group, leaves, |ls|, h) && ProvenIn(leaves, to) && Replaces(leaves, ls, to)
    ensures group != [] ==>
              Bit(|ls|, h) && ProofRoot(group[0].Hash(), group[0].se.leafIndex, group[0].se.merkleProof)
                              == Sub(to, h, Shr(|ls|, h) - 1)
    ensures group == [] && Bit(|ls|, h) ==> Sub(to, h, Shr(|ls|, h) - 1) == Sub(ls, h, Shr(|ls|, h) - 1)
  {
    if group != [] {
      assert TreeHeight(|ls|, group[0].se.leafIndex) == h;
      ProofRootOfProof(to, group[0].se.leafIndex, h);
    } else if Bit(|ls|, h) {
      var k := Shr(|ls|, h) - 1;
      forall y | 0 <= y < |ls| && Shr(y, h) == k
        ensures ls[y] == to[y]
      {
        TreeHeightUnique(|ls|, y, h);
      }
      SubAgree(ls, to, h, k);
    }
  }

  lemma {:induction false} ReplacedIndexed(leaves: seq<ElementLeaf>, ls: seq<Types.Hash>, to: seq<Types.Hash>)
    requires Replaces(leaves, ls, to) && Indexed(ls)
    ensures Indexed(to)
  {
    forall i | 0 <= i < |to|
      ensures to[i].LeafHash? && to[i].index == i
    {
      if to[i] != ls[i] { var l :| l in leaves && l.se.leafIndex == i; }
    }
  }

  /** Extends the proofs of the updated leaves by what their trees gained. */
  method AppendGrowth(leaves: seq<ElementLeaf>, growth: seq<seq<Types.Hash>>, ghost to: seq<Types.Hash>,
                      ghost more: seq<Types.Hash>)
    requires Distinct(leaves) && ProvenIn(leaves, to) && |to| < MAX_LEAVES
    requires growth == GrowthSeq(to + more, |to|, |to + more|)
    modifies States(leaves)`merkleProof
    ensures ProvenIn(leaves, to + more)
  {
    hide FullProof;
    ghost var full := to + more;
    for i := 0 to |leaves|
      invariant forall q :: 0 <= q < |leaves| ==> leaves[q].se.leafIndex < |to|
      invariant forall q :: i <= q < |leaves| ==> leaves[q].se.merkleProof == FullProof(to, leaves[q].se.leafIndex)
      invariant forall q :: 0 <= q < i ==> leaves[q].se.merkleProof == FullProof(full, leaves[q].se.leafIndex)
    {
      var e := leaves[i].se;
      ProofGains(to, more, e.leafIndex);
      e.merkleProof := e.merkleProof + growth[|e.merkleProof|];
    }
  }

  lemma {:induction false} ProofGains(to: seq<Types.Hash>, more: seq<Types.Hash>, x: nat)
    requires x < |to| < MAX_LEAVES
    ensures TreeHeight(|to|, x) < 64
    ensures FullProof(to + more, x) == FullProof(to, x) + GrowthSeq(to + more, |to|, |to + more|)[TreeHeight(|to|, x)]
  {
    HeightBound(|to|, x);
    ProofExtend(to, more, x, TreeHeight(|to|, x));
    GrowthExtends(to + more, |to|, |to + more|, x);
  }

  /** Extends the proofs of the updated leaves, which completes the move from ls. */
  method FinishUpdated(groups: seq<seq<ElementLeaf>>, leaves: seq<ElementLeaf>, growth: seq<seq<Types.Hash>>,
                       ghost ls: seq<Types.Hash>, ghost to: seq<Types.Hash>, ghost more: seq<Types.Hash>)
    requires Distinct(leaves) && Grouped(groups, leaves, |ls|) && Replaces(leaves, ls, to) && ProvenIn(leaves, to)
    requires |to| < MAX_LEAVES && growth == GrowthSeq(to + more, |to|, |to + more|)
    modifies States(leaves)`merkleProof
    ensures Moves(groups, leaves, |ls|, ls, to + more)
  {
    AppendGrowth(leaves, growth, to, more);
    forall h | 0 <= h < 64
      ensures GroupAt(groups[h], leaves, |ls|, h)
    {
      assert old(GroupAt(groups[h], leaves, |ls|, h));
    }
  }

  /** Brings the proof of an element that was in the accumulator before a block up to date with it. */
  method UpdateElementProof(eau: ApplyUpdate, e: StateElement, ghost leaves: seq<ElementLeaf>,
                            ghost ls: seq<Types.Hash>, ghost full: seq<Types.Hash>)
    requires eau.oldNumLeaves == |ls| <= |full| == eau.numLeaves < MAX_LEAVES
    requires Moves(eau.updated, leaves, |ls|, ls, full) && eau.treeGrowth == GrowthSeq(full, |ls|, |full|)
    requires e.leafIndex != UNASSIGNED
    requires e.leafIndex < |ls| ==> e.merkleProof == FullProof(ls, e.leafIndex)
    modifies e`merkleProof
    ensures e.leafIndex < |ls| ==> e.merkleProof == FullProof(full, e.leafIndex)
    ensures e.leafIndex >= |ls| ==> e.merkleProof == old(e.merkleProof)
  {
    if e.leafIndex >= eau.oldNumLeaves {
      return;
    }
    ghost var x, h := e.leafIndex, |e.merkleProof|;
    HeightBound(|ls|, x);
    GroupRepairs(eau.updated[h], leaves, |ls|, ls, full, x, h);
    UpdateProof(e, eau.updated, PathsOf(eau.updated[h]), ls, full);
    TreeHeightGrows(|ls|, |full|, x);
    GrowthExtends(full, |ls|, |full|, x);
    if MergeHeight(eau.numLeaves, e.leafIndex) != |e.merkleProof| {
      e.merkleProof := e.merkleProof + eau.treeGrowth[|e.merkleProof|];
    }
  }

  /** Cuts a proof over full back to the tree that its leaf had among the first numLeaves leaves. */
  method CutProof(e: StateElement, numLeaves: nat, ghost full: seq<Types.Hash>)
    requires e.leafIndex < numLeaves <= |full| && e.merkleProof == FullProof(full, e.leafIndex)
    modifies e`merkleProof
    ensures var h := TreeHeight(numLeaves, e.leafIndex);
            Shr(e.leafIndex, h) < Shr(|full|, h) && e.merkleProof == Proof(full, e.leafIndex, h)
  {
    ghost var x := e.leafIndex;
    ghost var h := TreeHeight(numLeaves, x);
    TreeHeightGrows(numLeaves, |full|, x);
    ProofPrefix(full, x, TreeHeight(|full|, x), h);
    var mh := MergeHeight(numLeaves, e.leafIndex);
    XorZero(numLeaves, e.leafIndex);
    if mh <= |e.merkleProof| {
      e.merkleProof := e.merkleProof[..mh - 1];
    } else {
      assert e.merkleProof[..h] == e.merkleProof;
    }
  }

  /** Takes the proof of an element back to before a block. */
  method RevertElementProof(eru: RevertUpdate, e: StateElement, ghost leaves: seq<ElementLeaf>,
                            ghost ls: seq<Types.Hash>, ghost full: seq<Types.Hash>)
    requires eru.numLeaves == |ls| <= |full| < MAX_LEAVES && Moves(eru.updated, leaves, |ls|, full, ls)
    requires e.leafIndex != UNASSIGNED && e.leafIndex < eru.numLeaves
    requires e.merkleProof == FullProof(full, e.leafIndex)
    modifies e`merkleProof
    ensures e.merkleProof == FullProof(ls, e.leafIndex)
  {
    hide Proof, Shr, TreeHeight;
    ghost var x := e.leafIndex;
    ghost var h := TreeHeight(|ls|, x);
    HeightBound(|ls|, x);
    CutProof(e, eru.numLeaves, full);
    GroupRepairs(eru.updated[h], leaves, |ls|, full, ls, x, h);
    UpdateProof(e, eru.updated, PathsOf(eru.updated[h]), full, ls);
  }

  /** What applying and reverting one block offers to the holders of proofs. */
  ghost predicate Steps(eau: ApplyUpdate, eru: RevertUpdate, al: seq<ElementLeaf>, rl: seq<ElementLeaf>,
                        ls: seq<Types.Hash>, full: seq<Types.Hash>)
    reads States(al), States(rl)
  {
    && eau.oldNumLeaves == eru.numLeaves == |ls| <= |full| == eau.numLeaves < MAX_LEAVES
    && Moves(eau.updated, al, |ls|, ls, full) && eau.treeGrowth == GrowthSeq(full, |ls|, |full|)
    && Moves(eru.updated, rl, |ls|, full, ls)
  }

  /** Takes the proof of an element from one list of a chain to a neighbouring one. */
  method FollowStep(aus: seq<ApplyUpdate>, rus: seq<RevertUpdate>, from: nat, to: nat, e: StateElement,
                    ghost al: seq<ElementLeaf>, ghost rl: seq<ElementLeaf>, ghost ls: seq<Types.Hash>,
                    ghost full: seq<Types.Hash>)
    requires |aus| == |rus| && (to == from + 1 || from == to + 1) && from <= |aus| && to <= |aus|
    requires var i := if from < to then from else to; Steps(aus[i], rus[i], al, rl, ls, full)
    requires e !in States(al) && e !in States(rl) && e.leafIndex != UNASSIGNED && e.leafIndex < |ls|
    requires e.merkleProof == FullProof(if from < to then ls else full, e.leafIndex)
    modifies e`merkleProof
    ensures e.merkleProof == FullProof(if from < to then full else ls, e.leafIndex)
  {
    if to == from + 1 {
      UpdateElementProof(aus[from], e, al, ls, full);
    } else {
      RevertElementProof(rus[to], e, rl, ls, full);
    }
  }

  /** Follows the chain of lists forwards and backwards, one block at a time, along any walk on which the
      leaf exists: the proof is the leaf's path over the list the walk has reached, so a walk that comes
      back to its first list restores the proof hash for hash. */
  method FollowChain(aus: seq<ApplyUpdate>, rus: seq<RevertUpdate>, walk: seq<nat>, e: StateElement,
                     ghost al: seq<seq<ElementLeaf>>, ghost rl: seq<seq<ElementLeaf>>,
                     ghost lists: seq<seq<Types.Hash>>)
    requires |aus| == |rus| == |al| == |rl| == |lists| - 1
    requires forall i :: 0 <= i < |aus| ==> Steps(aus[i], rus[i], al[i], rl[i], lists[i], lists[i + 1])
    requires forall i :: 0 <= i < |aus| ==> e !in States(al[i]) && e !in States(rl[i])
    requires walk != [] && forall i :: 0 <= i < |walk| ==> walk[i] < |lists| && e.leafIndex < |lists[walk[i]]|
    requires forall i :: 0 <= i < |walk| - 1 ==> walk[i + 1] == walk[i] + 1 || walk[i] == walk[i + 1] + 1
    requires e.leafIndex != UNASSIGNED && e.merkleProof == FullProof(lists[walk[0]], e.leafIndex)
    modifies e`merkleProof
    ensures e.merkleProof == FullProof(lists[walk[|walk| - 1]], e.leafIndex)
    ensures walk[|walk| - 1] == walk[0] ==> e.merkleProof == old(e.merkleProof)
  {
    for i := 1 to |walk|
      invariant e.merkleProof == FullProof(lists[walk[i - 1]], e.leafIndex)
      invariant forall j :: 0 <= j < |aus| ==> Steps(aus[j], rus[j], al[j], rl[j], lists[j], lists[j + 1])
    {
      var from, to := walk[i - 1], walk[i - 1 + 1];
      ghost var j := if from < to then from else to;
      assert Steps(aus[j], rus[j], al[j], rl[j], lists[j], lists[j + 1]);
      FollowStep(aus, rus, from, to, e, al[j], rl[j], lists[j], lists[j + 1]);
    }
  }

  /** An added leaf's proof, as left by AddLeaves behind the proof it had, is accepted exactly when it
      had none: a leaf that arrives with a proof keeps it as a prefix. */
  lemma {:induction false} AddedProofIff(trees: seq<Types.Hash>, full: seq<Types.Hash>, leaf: Types.Hash,
                                         was: seq<Types.Hash>)
    requires Roots(trees, |full|, full) && Indexed(full) && leaf.LeafHash? && leaf.index < |full|
    requires full[leaf.index] == leaf
    ensures Contains(trees, |full|, leaf, leaf.index, was + FullProof(full, leaf.index)) <==> was == []
  {
    ContainsIff(trees, full, leaf, was + FullProof(full, leaf.index));
    if was != [] { assert |was + FullProof(full, leaf.index)| > |FullProof(full, leaf.index)|; }
    else { assert [] + FullProof(full, leaf.index) == FullProof(full, leaf.index); }
  }

  /** After an append exactly those of the new leaves are accepted that had no proof before. */
  lemma {:induction false} AddedAccepted(trees: seq<Types.Hash>, leaves: seq<ElementLeaf>, was: seq<seq<Types.Hash>>,
                                         n: nat, full: seq<Types.Hash>, j: nat)
    requires Roots(trees, |full|, full) && Indexed(full) && |full| == n + |leaves| && |was| == |leaves| && j < |leaves|
    requires full[n..] == NewHashes(leaves, n) && leaves[j].se.leafIndex == n + j
    requires leaves[j].se.merkleProof == AddedProofs(was, full, n, |leaves|)[j]
    ensures Contains(trees, |full|, leaves[j].Hash(), n + j, leaves[j].se.merkleProof) <==> was[j] == []
  {
    var x := n + j;
    assert full[x] == full[n..][j] == leaves[j].Hash();
    assert PrefixProof(full, n + |leaves|, x) == FullProof(full, x);
    assert leaves[j].se.merkleProof == was[j] + FullProof(full, x);
    AddedProofIff(trees, full, leaves[j].Hash(), was[j]);
  }

  /** The roots below row height are those of to, and the others are as they were. */
  ghost predicate Rooted(ts: seq<Types.Hash>, was: seq<Types.Hash>, ls: seq<Types.Hash>, to: seq<Types.Hash>,
                         height: nat)
    requires |to| == |ls|
  {
    && |ts| == 64 && |was| == 64 && height <= 64
    && (forall h {:trigger ts[h]} :: 0 <= h < height && Bit(|ls|, h) ==> ts[h] == Sub(to, h, Shr(|ls|, h) - 1))
    && (forall h :: height <= h < 64 ==> ts[h] == was[h])
  }

  lemma {:induction false} RootedEnds(ts: seq<Types.Hash>, was: seq<Types.Hash>, ls: seq<Types.Hash>,
                                      to: seq<Types.Hash>)
    requires |to| == |ls| && |was| == 64 && Roots(was, |ls|, ls)
    ensures Rooted(was, was, ls, to, 0)
    ensures Rooted(ts, was, ls, to, 64) ==> Roots(ts, |ls|, to)
  {
    hide Sub;
  }

  lemma {:induction false} RootedAt(ts: seq<Types.Hash>, was: seq<Types.Hash>, ls: seq<Types.Hash>, to: seq<Types.Hash>,
                                    height: nat)
    requires |to| == |ls| && height < 64 && Rooted(ts, was, ls, to, height) && Roots(was, |ls|, ls)
    ensures Bit(|ls|, height) ==> ts[height] == Sub(ls, height, Shr(|ls|, height) - 1)
  {
    hide Sub;
  }

  lemma {:induction false} RootedNext(ts: seq<Types.Hash>, was: seq<Types.Hash>, ls: seq<Types.Hash>,
                                      to: seq<Types.Hash>, height: nat, r: Types.Hash)
    requires |to| == |ls| && height < 64 && Rooted(ts, was, ls, to, height)
    requires Bit(|ls|, height) ==> r == Sub(to, height, Shr(|ls|, height) - 1)
    ensures Rooted(ts[height := r], was, ls, to, height + 1)
  {
    hide Sub;
  }

  class ElementAccumulator {
    const trees: array<Types.Hash>
    var numLeaves: nat

    constructor ()
      ensures trees.Length == 64 && numLeaves == 0 && fresh(trees)
      ensures Holds([])
    {
      trees := new Types.Hash[64](_ => OtherHash(0));
      numLeaves := 0;
      new;
      forall h ensures !Bit(0, h) { ShrZero(h); }
    }

    /** The accumulator commits exactly the leaf hashes ls. */
    ghost predicate Holds(ls: seq<Types.Hash>)
      reads this, trees
    {
      trees.Length == 64 && Indexed(ls) && numLeaves == |ls| && Roots(trees[..], numLeaves, ls)
    }

    /** The accumulator accepts the leaf with the proof it holds. */
    ghost predicate Accepts(l: ElementLeaf)
      reads this, trees, l.se
    {
      trees.Length == 64 && Contains(trees[..], numLeaves, l.Hash(), l.se.leafIndex, l.se.merkleProof)
    }

    /** The first count leaves have been added to n0 earlier ones, towards the list full. */
    ghost predicate Added(leaves: seq<ElementLeaf>, count: nat, n0: nat, was: seq<seq<Types.Hash>>,
                          full: seq<Types.Hash>)
      reads this, trees, States(leaves)
    {
      && count <= |leaves| && trees.Length == 64 && numLeaves == n0 + count <= |full|
      && Roots(trees[..], n0 + count, full)
      && Holding(leaves, AddedProofs(was, full, n0, count))
      && forall j :: 0 <= j < count ==> leaves[j].se.leafIndex == n0 + j
    }

    /** One round of addLeaves: leaf i, at position numLeaves, is merged upwards from row 0. */
    method AddLeaf(leaves: seq<ElementLeaf>, i: nat, n0: nat, growth: seq<seq<Types.Hash>>,
                   ghost was: seq<seq<Types.Hash>>, ghost full: seq<Types.Hash>)
      returns (grown: seq<seq<Types.Hash>>)
      requires Distinct(leaves) && i < |leaves| == |was| && n0 + i < |full| < MAX_LEAVES
      requires full[n0 + i] == LeafHash(leaves[i].element, n0 + i, leaves[i].spent)
      requires Added(leaves, i, n0, was, full) && growth == GrowthSeq(full, n0, n0 + i)
      modifies this`numLeaves, trees, States(leaves)
      ensures Added(leaves, i + 1, n0, was, full) && grown == GrowthSeq(full, n0, n0 + (i + 1))
    {
      leaves[i].se.leafIndex := numLeaves;
      var height, h;
      height, h, grown := MergeUp(trees[..], leaves, i, n0, leaves[i].Hash(), growth, was, full);
      StoreTree(height, h, full);
    }

    /** Stores the new leaf's tree in the free row. */
    method StoreTree(height: nat, h: Types.Hash, ghost full: seq<Types.Hash>)
      requires trees.Length == 64 && height < 64 && !Bit(numLeaves, height) && LowOnes(numLeaves, height)
      requires numLeaves + 1 <= |full| && numLeaves + 1 < MAX_LEAVES && Roots(trees[..], numLeaves, full)
      requires Shr(numLeaves, height) < Shr(|full|, height) && h == Sub(full, height, Shr(numLeaves, height))
      modifies this`numLeaves, trees
      ensures numLeaves == old(numLeaves) + 1 && Roots(trees[..], numLeaves, full)
    {
      RootsStored(trees[..], numLeaves, full, height);
      assert trees[..][height := h] == trees[..height] + [h] + trees[height + 1..];
      trees[height] := h;
      numLeaves := numLeaves + 1;
    }

    method AddEach(leaves: seq<ElementLeaf>, ghost was: seq<seq<Types.Hash>>, ghost full: seq<Types.Hash>)
      returns (treeGrowth: seq<seq<Types.Hash>>)
      requires trees.Length == 64 && Distinct(leaves) && |full| == numLeaves + |leaves| < MAX_LEAVES
      requires Roots(trees[..], numLeaves, full) && full[numLeaves..] == NewHashes(leaves, numLeaves)
      requires Holding(leaves, was)
      modifies this`numLeaves, trees, States(leaves)
      ensures Added(leaves, |leaves|, old(numLeaves), was, full)
      ensures treeGrowth == GrowthSeq(full, old(numLeaves), |full|)
    {
      var n0 := numLeaves;
      treeGrowth := seq(64, _ => []);
      AddedNone(was, full, n0);
      for i := 0 to |leaves|
        invariant Added(leaves, i, n0, was, full)
        invariant treeGrowth == GrowthSeq(full, n0, n0 + i)
      {
        assert full[n0 + i] == full[n0..][i];
        treeGrowth := AddLeaf(leaves, i, n0, treeGrowth, was, full);
      }
    }

    /** Adds leaves at positions numLeaves, numLeaves + 1, ..., filling in their proofs, and returns
        what the proofs under each existing tree gain. */
    method AddLeaves(leaves: seq<ElementLeaf>, ghost ls: seq<Types.Hash>)
      returns (treeGrowth: seq<seq<Types.Hash>>)
      requires Holds(ls) && Distinct(leaves) && |ls| + |leaves| < MAX_LEAVES
      modifies this`numLeaves, trees, States(leaves)
      ensures Holds(ls + NewHashes(leaves, |ls|))
      ensures forall j :: 0 <= j < |leaves| ==> leaves[j].se.leafIndex == |ls| + j
      ensures Holding(leaves, AddedProofs(old(ProofsOf(leaves)), ls + NewHashes(leaves, |ls|), |ls|, |leaves|))
      ensures treeGrowth == GrowthSeq(ls + NewHashes(leaves, |ls|), |ls|, |ls| + |leaves|)
    {
      ghost var full := ls + NewHashes(leaves, |ls|);
      RootsExtend(trees[..], ls, NewHashes(leaves, |ls|));
      treeGrowth := AddEach(leaves, ProofsOf(leaves), full);
    }

    /** Moves the updated leaves' trees and proofs from ls to to. */
    method UpdateRoots(updated: seq<ElementLeaf>, ghost ls: seq<Types.Hash>, ghost to: seq<Types.Hash>)
      returns (groups: seq<seq<ElementLeaf>>)
      requires Holds(ls) && Distinct(updated) && DistinctIndices(updated) && ProvenIn(updated, ls)
      requires Replaces(updated, ls, to)
      modifies trees, States(updated)`merkleProof
      ensures Holds(to) && Grouped(groups, updated, |ls|) && ProvenIn(updated, to) && Replaces(updated, ls, to)
    {
      hide ProvenIn, Grouped;
      groups := UpdateLeaves(updated, ls, to);
      ReplacedIndexed(updated, ls, to);
      StoreRoots(groups, updated, ls, to);
    }

    /** Applies a block's updated and added leaves.  ls are the leaf hashes before, to the same with the
        updated leaves in place. */
    method ApplyBlock(updated: seq<ElementLeaf>, added: seq<ElementLeaf>, ghost ls: seq<Types.Hash>,
                      ghost to: seq<Types.Hash>)
      returns (eau: ApplyUpdate)
      requires Holds(ls) && |ls| + |added| < MAX_LEAVES
      requires Distinct(updated) && Distinct(added) && States(updated) !! States(added)
      requires DistinctIndices(updated) && ProvenIn(updated, ls) && Replaces(updated, ls, to)
      modifies this`numLeaves, trees, States(updated)`merkleProof, States(added)
      ensures var full := to + NewHashes(added, |ls|);
              && Holds(full)
              && Moves(eau.updated, updated, |ls|, ls, full)
              && eau.treeGrowth == GrowthSeq(full, |ls|, |full|)
              && eau.oldNumLeaves == |ls| && eau.numLeaves == |full|
              && Holding(added, AddedProofs(old(ProofsOf(added)), full, |ls|, |added|))
      ensures forall j :: 0 <= j < |added| ==> added[j].se.leafIndex == |ls| + j
    {
      hide Grouped, Replaces, ProvenIn, DistinctIndices, Moves, GrowthSeq, AddedProofs, Roots, Indexed;
      var groups := UpdateRoots(updated, ls, to);
      var oldNumLeaves := numLeaves;
      var growth := AddLeaves(added, to);
      FinishUpdated(groups, updated, growth, ls, to, NewHashes(added, |ls|));
      eau := ApplyUpdate(groups, growth, oldNumLeaves, numLeaves);
    }

    /** Prepares the proofs of a block's elements for going back to this accumulator, which is the one
        from before the block; full are the leaf hashes after it.  The accumulator is not modified. */
    method RevertBlock(updated: seq<ElementLeaf>, added: seq<ElementLeaf>, ghost ls: seq<Types.Hash>,
                       ghost full: seq<Types.Hash>)
      returns (eru: RevertUpdate)
      requires Holds(ls) && |ls| <= |full|
      requires Distinct(updated) && Distinct(added) && States(updated) !! States(added)
      requires DistinctIndices(updated) && ProvenIn(updated, ls) && Replaces(updated, ls, ls)
      requires forall y :: 0 <= y < |ls| && full[y] != ls[y] ==> exists l :: l in updated && l.se.leafIndex == y
      modifies States(updated)`merkleProof, States(added)`leafIndex
      ensures eru.numLeaves == |ls| && Moves(eru.updated, updated, |ls|, full, ls)
      ensures forall j :: 0 <= j < |added| ==> added[j].se.leafIndex == |ls| + j
    {
      var groups := UpdateLeaves(updated, ls, ls);
      assert Moves(groups, updated, |ls|, full, ls);
      Renumber(added, numLeaves);
      eru := RevertUpdate(groups, numLeaves);
    }

    /** Gives the leaves the positions from n on. */
    static method Renumber(leaves: seq<ElementLeaf>, n: nat)
      requires Distinct(leaves)
      modifies States(leaves)`leafIndex
      ensures forall j :: 0 <= j < |leaves| ==> leaves[j].se.leafIndex == n + j
    {
      for i := 0 to |leaves|
        invariant forall j :: 0 <= j < i ==> leaves[j].se.leafIndex == n + j
      {
        leaves[i].se.leafIndex := n + i;
      }
    }

    /** A leaf is accepted exactly when the list holds it at its position and its proof is the path. */
    method ContainsLeaf(l: ElementLeaf, ghost ls: seq<Types.Hash>) returns (found: bool)
      requires Holds(ls)
      ensures found <==> && l.se.leafIndex < |ls| && ls[l.se.leafIndex] == l.Hash()
                         && l.se.merkleProof == FullProof(ls, l.se.leafIndex)
    {
      ContainsIff(trees[..], ls, l.Hash(), l.se.merkleProof);
      var height := |l.se.merkleProof|;
      if height >= 64 || !Bit(numLeaves, height) {
        return false;
      }
      var root := ComputeProofRoot(l.Hash(), l.se.leafIndex, l.se.merkleProof);
      found := trees[height] == root;
    }

    /** Stores the root of every tree that has an updated leaf. */
    method StoreRoots(groups: seq<seq<ElementLeaf>>, ghost leaves: seq<ElementLeaf>, ghost ls: seq<Types.Hash>,
                      ghost to: seq<Types.Hash>)
      requires Holds(ls) && |to| == |ls| && Indexed(to)
      requires Grouped(groups, leaves, |ls|) && ProvenIn(leaves, to) && Replaces(leaves, ls, to)
      modifies trees
      ensures Holds(to)
    {
      hide Rooted, Roots, Sub;
      ghost var was := trees[..];
      RootedEnds(was, was, ls, to);
      for height := 0 to 64
        invariant Rooted(trees[..], was, ls, to, height)
      {
        RootedAt(trees[..], was, ls, to, height);
        assert GroupAt(groups[height], leaves, |ls|, height);
        var r := NewRoot(groups[height], trees[height], height, leaves, ls, to);
        RootedNext(trees[..], was, ls, to, height, r);
        assert trees[..][height := r] == trees[..height] + [r] + trees[height + 1..];
        trees[height] := r;
      }
      RootedEnds(trees[..], was, ls, to);
    }

    /** The root of one tree: recomputed from an updated leaf, or the old one. */
    static method NewRoot(group: seq<ElementLeaf>, root: Types.Hash, height: nat, ghost leaves: seq<ElementLeaf>,
                          ghost ls: seq<Types.Hash>, ghost to: seq<Types.Hash>) returns (r: Types.Hash)
      requires GroupAt(group, leaves, |ls|, height) && ProvenIn(leaves, to) && Replaces(leaves, ls, to)
      requires Bit(|ls|, height) ==> root == Sub(ls, height, Shr(|ls|, height) - 1)
      ensures Bit(|ls|, height) ==> r == Sub(to, height, Shr(|ls|, height) - 1)
    {
      GroupRoot(group, leaves, ls, to, height);
      r := root;
      if group != [] {
        r := ComputeProofRoot(group[0].Hash(), group[0].se.leafIndex, group[0].se.merkleProof);
      }
    }
  }
}
