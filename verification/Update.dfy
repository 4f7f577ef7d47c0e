/** updateLeaves and updateProof: rewriting proofs in place when some leaves change. */
module Update {
  import opened Bits
  import opened Types
  import opened Forest
  import opened Elements
  import opened Paths

  /** No two leaves are at the same position; the recomputation panics otherwise. */
  ghost predicate DistinctIndices(leaves: seq<ElementLeaf>)
    reads States(leaves)
  {
    forall a, b :: a in leaves && b in leaves && a.se != b.se ==> a.se.leafIndex != b.se.leafIndex
  }

  /** sort.Search: the first leaf at or after position mid. */
  method SplitLeaves(leaves: seq<ElementLeaf>, mid: nat, ghost ps: seq<Path>) returns (s: nat)
    requires Views(leaves, ps) && forall p, q :: 0 <= p < q < |ps| ==> ps[p].index <= ps[q].index
    ensures s <= |leaves|
    ensures forall q :: 0 <= q < s ==> ps[q].index < mid
    ensures forall q :: s <= q < |ps| ==> ps[q].index >= mid
  {
    var lo, hi := 0, |leaves|;
    while lo < hi
      invariant 0 <= lo <= hi <= |leaves|
      invariant forall q :: 0 <= q < lo ==> ps[q].index < mid
      invariant forall q :: hi <= q < |leaves| ==> ps[q].index >= mid
    {
      var m := (lo + hi) / 2;
      if leaves[m].se.leafIndex >= mid {
        hi := m;
      } else {
        lo := m + 1;
      }
    }
    s := lo;
  }

  /** Overwrites entry g of every proof. */
  method SetEntry(leaves: seq<ElementLeaf>, g: nat, h: Types.Hash, ghost ps: seq<Path>)
    requires Distinct(leaves) && Views(leaves, ps)
    requires forall q :: 0 <= q < |ps| ==> g < |ps[q].proof|
    modifies States(leaves)`merkleProof
    ensures Views(leaves, WithEntry(ps, g, h))
  {
    for i := 0 to |leaves|
      invariant forall q :: 0 <= q < |leaves| ==>
                  ps[q] == Path(leaves[q].se.leafIndex, leaves[q].Hash(), old(leaves[q].se.merkleProof))
      invariant forall q :: 0 <= q < |leaves| ==>
                  leaves[q].se.merkleProof == if q < i then ps[q].proof[g := h] else ps[q].proof
    {
      leaves[i].se.merkleProof := leaves[i].se.merkleProof[g := h];
    }
  }

  lemma {:induction false} MidPoint(h: nat, k: nat)
    requires h > 0
    ensures (Shl(k, h) + Shl(k + 1, h)) / 2 == Shl(2 * k + 1, h - 1)
    ensures Shl(k, h) == Shl(2 * k, h - 1) && Shl(k + 1, h) == Shl(2 * k + 2, h - 1)
  {
    ShlFront(k, h);
    ShlFront(k + 1, h);
    ShlAdd(2 * k, 1, h - 1);
    ShlAdd(2 * k + 1, 1, h - 1);
  }

  lemma {:induction false} RangeHeight(h: nat, k: nat)
    ensures Shl(k + 1, h) > Shl(k, h) && TrailingZeros(Shl(k + 1, h) - Shl(k, h)) == h
  {
    ShlAdd(k, 1, h);
    ShlPow2(h);
    TrailingZerosPow2(h);
  }

  /** The root of the half over [i, j), below row height: recomputed and written into the other half's
      proofs if it has changed leaves, and otherwise read from them. */
  method RecomputeHalf(i: nat, j: nat, half: seq<ElementLeaf>, other: seq<ElementLeaf>, height: nat, ghost c: nat,
                       ghost ps: seq<Path>, ghost os: seq<Path>, ghost ls: seq<Types.Hash>, ghost to: seq<Types.Hash>)
    returns (root: Types.Hash)
    requires height > 0 && i == Shl(c, height - 1) && j == Shl(c + 1, height - 1)
    requires Distinct(half) && Distinct(other) && States(half) !! States(other) && half + other != []
    requires Views(half, ps) && Views(other, os) && Ready(ps, ls, to, height - 1, c)
    requires forall q :: 0 <= q < |os| ==> height <= |os[q].proof| && os[q].proof[height - 1] == Sub(ls, height - 1, c)
    modifies States(half)`merkleProof, States(other)`merkleProof
    ensures root == Sub(to, height - 1, c)
    ensures Views(half, Moved(ps, to, height - 1, c)) && Views(other, WithEntry(os, height - 1, root))
    decreases height, 0
  {
    if half == [] {
      ReadyEmpty(ls, to, height - 1, c);
      root := other[0].se.merkleProof[height - 1];
      WithEntrySame(os, height - 1, root);
    } else {
      root := Recompute(i, j, half, height - 1, c, ps, ls, to);
      SetEntry(other, height - 1, root, os);
    }
  }

  /** Recomputes both halves around mid, in the order left, right. */
  method RecomputeHalves(i: nat, mid: nat, j: nat, left: seq<ElementLeaf>, right: seq<ElementLeaf>, height: nat,
                         ghost k: nat, ghost ps: seq<Path>, ghost ls: seq<Types.Hash>, ghost to: seq<Types.Hash>)
    returns (root: Types.Hash)
    requires height > 0 && i == Shl(2 * k, height - 1) && mid == Shl(2 * k + 1, height - 1)
    requires j == Shl(2 * k + 2, height - 1)
    requires Distinct(left) && Distinct(right) && States(left) !! States(right) && left + right != []
    requires |left| <= |ps| && Views(left, ps[..|left|]) && Views(right, ps[|left|..]) && Ready(ps, ls, to, height, k)
    requires forall q :: 0 <= q < |left| ==> ps[q].index < mid
    requires forall q :: |left| <= q < |ps| ==> ps[q].index >= mid
    modifies States(left)`merkleProof, States(right)`merkleProof
    ensures root == Sub(to, height, k)
    ensures Views(left, Moved(ps, to, height, k)[..|left|]) && Views(right, Moved(ps, to, height, k)[|left|..])
    decreases height, 1
  {
    hide Proof, Shl;
    ghost var s := |left|;
    ReadyHalves(ps, s, ls, to, height, k);
    MovedHalves(ps, s, ls, to, height, k);
    var leftRoot := RecomputeHalf(i, mid, left, right, height, 2 * k, ps[..s], ps[s..], ls, to);
    var rightRoot := RecomputeHalf(mid, j, right, left, height, 2 * k + 1, WithEntry(ps[s..], height - 1, leftRoot),
                                   Moved(ps[..s], to, height - 1, 2 * k), ls, to);
    root := PairHash(leftRoot, rightRoot);
  }

  /** Recomputes the root of the subtree over positions [i, j), row h and column k, writing into each
      leaf's proof the new siblings below row h; entries from row h up are left alone. */
  method Recompute(i: nat, j: nat, leaves: seq<ElementLeaf>, ghost h: nat, ghost k: nat,
                   ghost ps: seq<Path>, ghost ls: seq<Types.Hash>, ghost to: seq<Types.Hash>)
    returns (root: Types.Hash)
    requires i == Shl(k, h) && j == Shl(k + 1, h)
    requires leaves != [] && Distinct(leaves) && Views(leaves, ps) && Ready(ps, ls, to, h, k)
    modifies States(leaves)`merkleProof
    ensures root == Sub(to, h, k)
    ensures Views(leaves, Moved(ps, to, h, k))
    decreases h, 2
  {
    RangeHeight(h, k);
    var height := TrailingZeros(j - i);
    if height == 0 {
      root := leaves[0].Hash();
      MovedNone(ps, to, k);
      return;
    }
    MidPoint(h, k);
    var mid := (i + j) / 2;
    var s := SplitLeaves(leaves, mid, ps);
    var left, right := leaves[..s], leaves[s..];
    DistinctSplit(leaves, s);
    ViewsSplit(leaves, ps, s);
    root := RecomputeHalves(i, mid, j, left, right, height, k, ps, ls, to);
    ViewsSplit(leaves, Moved(ps, to, h, k), s);
  }

  // ---- Grouping by tree ----

  predicate Before(a: ElementLeaf, b: ElementLeaf)
    reads a.se, b.se
  {
    |a.se.merkleProof| < |b.se.merkleProof| ||
    (|a.se.merkleProof| == |b.se.merkleProof| && a.se.leafIndex <= b.se.leafIndex)
  }

  ghost predicate Ordered(leaves: seq<ElementLeaf>)
    reads States(leaves)
  {
    forall p, q :: 0 <= p < q < |leaves| ==> Before(leaves[p], leaves[q])
  }

  ghost predicate SameLeaves(a: seq<ElementLeaf>, b: seq<ElementLeaf>) {
    |a| == |b| && (forall l :: l in a ==> l in b) && (forall l :: l in b ==> l in a)
  }

  ghost function Inserted(sorted: seq<ElementLeaf>, l: ElementLeaf, j: nat): (next: seq<ElementLeaf>)
    requires j <= |sorted|
    ensures |next| == |sorted| + 1
    ensures forall q :: 0 <= q < |next| ==> next[q] == if q < j then sorted[q] else if q == j then l else sorted[q - 1]
  {
    sorted[..j] + [l] + sorted[j..]
  }

  lemma {:induction false} InsertedSame(sorted: seq<ElementLeaf>, l: ElementLeaf, j: nat)
    requires j <= |sorted|
    ensures SameLeaves(Inserted(sorted, l, j), sorted + [l])
  {
    assert sorted == sorted[..j] + sorted[j..];
  }

  lemma {:induction false} InsertedDistinct(sorted: seq<ElementLeaf>, l: ElementLeaf, j: nat)
    requires j <= |sorted| && Distinct(sorted) && l.se !in States(sorted)
    ensures Distinct(Inserted(sorted, l, j))
  {
    assert forall q :: 0 <= q < |sorted| ==> sorted[q].se in States(sorted);
  }

  lemma {:induction false} InsertedOrdered(sorted: seq<ElementLeaf>, l: ElementLeaf, j: nat)
    requires j <= |sorted| && Ordered(sorted)
    requires forall q :: 0 <= q < j ==> Before(sorted[q], l)
    requires forall q :: j <= q < |sorted| ==> Before(l, sorted[q])
    ensures Ordered(Inserted(sorted, l, j))
  {
    var next := Inserted(sorted, l, j);
    forall p, q | 0 <= p < q < |next|
      ensures Before(next[p], next[q])
    {
      var p', q' := if p < j then p else p - 1, if q < j then q else q - 1;
      if p != j && q != j { assert Before(sorted[p'], sorted[q']); }
    }
  }

  method InsertLeaf(sorted: seq<ElementLeaf>, l: ElementLeaf) returns (next: seq<ElementLeaf>)
    requires Distinct(sorted) && Ordered(sorted) && l.se !in States(sorted)
    ensures Distinct(next) && SameLeaves(next, sorted + [l]) && Ordered(next)
  {
    var j := |sorted|;
    while j > 0 && !Before(sorted[j - 1], l)
      invariant 0 <= j <= |sorted|
      invariant forall q :: j <= q < |sorted| ==> Before(l, sorted[q])
    {
      j := j - 1;
    }
    InsertedSame(sorted, l, j);
    InsertedDistinct(sorted, l, j);
    InsertedOrdered(sorted, l, j);
    next := sorted[..j] + [l] + sorted[j..];
  }

  /** sort.Slice by proof length, then by position. */
  method SortLeaves(leaves: seq<ElementLeaf>) returns (sorted: seq<ElementLeaf>)
    requires Distinct(leaves)
    ensures Distinct(sorted) && SameLeaves(sorted, leaves) && Ordered(sorted)
  {
    sorted := [];
    for i := 0 to |leaves|
      invariant Distinct(sorted) && SameLeaves(sorted, leaves[..i]) && Ordered(sorted)
    {
      sorted := InsertLeaf(sorted, leaves[i]);
      assert leaves[..i + 1] == leaves[..i] + [leaves[i]];
    }
    assert leaves[..|leaves|] == leaves;
  }

  /** The leaves' proofs are their full paths over ls. */
  ghost predicate ProvenIn(leaves: seq<ElementLeaf>, ls: seq<Types.Hash>)
    reads States(leaves)
  {
    forall l :: l in leaves ==> l.se.leafIndex < |ls| && l.se.merkleProof == FullProof(ls, l.se.leafIndex)
  }

  /** trees[h] holds, in order of position, the leaves whose tree among n leaves has height h. */
  ghost predicate Grouped(trees: seq<seq<ElementLeaf>>, leaves: seq<ElementLeaf>, n: nat)
    reads States(leaves)
  {
    && |trees| == 64
    && (forall l :: l in leaves ==> l.se.leafIndex < n)
    && (forall h :: 0 <= h < 64 ==> GroupAt(trees[h], leaves, n, h))
  }

  /** group holds the leaves whose tree among n leaves has height h. */
  ghost predicate BucketAt(group: seq<ElementLeaf>, leaves: seq<ElementLeaf>, n: nat, h: nat)
    reads States(leaves)
  {
    && Distinct(group)
    && (forall l :: l in group ==> l in leaves && l.se.leafIndex < n && TreeHeight(n, l.se.leafIndex) == h)
    && (forall l :: l in leaves && l.se.leafIndex < n && TreeHeight(n, l.se.leafIndex) == h ==> l in group)
  }

  ghost predicate GroupAt(group: seq<ElementLeaf>, leaves: seq<ElementLeaf>, n: nat, h: nat)
    reads States(leaves)
  {
    && BucketAt(group, leaves, n, h)
    && (forall p, q :: 0 <= p < q < |group| ==>
          group[p] in leaves && group[q] in leaves && group[p].se.leafIndex < group[q].se.leafIndex)
  }

  /** The leaves of proof length h are contiguous in a sorted list. */
  method GroupLeaves(sorted: seq<ElementLeaf>, ghost ls: seq<Types.Hash>) returns (trees: seq<seq<ElementLeaf>>)
    requires Distinct(sorted) && Ordered(sorted) && ProvenIn(sorted, ls) && |ls| < MAX_LEAVES
    requires DistinctIndices(sorted)
    ensures Grouped(trees, sorted, |ls|)
  {
    hide TreeHeight, FullProof;
    forall l | l in sorted ensures |l.se.merkleProof| < 64 { HeightBound(|ls|, l.se.leafIndex); }
    trees := seq(64, _ => []);
    var at := 0;
    while at < |sorted|
      invariant 0 <= at <= |sorted| && |trees| == 64
      invariant forall h :: 0 <= h < 64 ==> GroupAt(trees[h], sorted[..at], |ls|, h)
      invariant forall h :: 0 <= h < 64 && at < |sorted| && h >= |sorted[at].se.merkleProof| ==> trees[h] == []
    {
      var height := |sorted[at].se.merkleProof|;
      var i := at;
      while i < |sorted| && |sorted[i].se.merkleProof| == height
        invariant at <= i <= |sorted|
        invariant forall q :: at <= q < i ==> |sorted[q].se.merkleProof| == height
        decreases |sorted| - i
      {
        i := i + 1;
      }
      GroupStep(trees, sorted, at, i, |ls|);
      trees := trees[height := sorted[at..i]];
      at := i;
    }
    assert sorted[..at] == sorted;
  }

  lemma {:induction false} HeightBound(n: nat, i: nat)
    requires i < n < MAX_LEAVES
    ensures TreeHeight(n, i) < 64
  {
    if TreeHeight(n, i) >= 64 {
      TopRowFree(n, TreeHeight(n, i));
      assert false;
    }
  }

  lemma {:induction false} GroupStep(trees: seq<seq<ElementLeaf>>, sorted: seq<ElementLeaf>, at: nat, i: nat, n: nat)
    requires at < i <= |sorted| && |trees| == 64 && |sorted[at].se.merkleProof| < 64
    requires Distinct(sorted) && DistinctIndices(sorted) && Ordered(sorted)
    requires forall l :: l in sorted ==> l.se.leafIndex < n && |l.se.merkleProof| == TreeHeight(n, l.se.leafIndex)
    requires forall h :: 0 <= h < 64 ==> GroupAt(trees[h], sorted[..at], n, h)
    requires trees[|sorted[at].se.merkleProof|] == []
    requires forall q :: at <= q < i ==> |sorted[q].se.merkleProof| == |sorted[at].se.merkleProof|
    ensures var next := trees[|sorted[at].se.merkleProof| := sorted[at..i]];
            forall h :: 0 <= h < 64 ==> GroupAt(next[h], sorted[..i], n, h)
  {
    hide TreeHeight;
    var next := trees[|sorted[at].se.merkleProof| := sorted[at..i]];
    assert sorted[..i] == sorted[..at] + sorted[at..i];
    forall h | 0 <= h < 64
      ensures GroupAt(next[h], sorted[..i], n, h)
    {
      assert GroupAt(trees[h], sorted[..at], n, h);
    }
  }

  // ---- updateLeaves ----

  /** The list to is ls with the given leaves' hashes put in place. */
  ghost predicate Replaces(leaves: seq<ElementLeaf>, ls: seq<Types.Hash>, to: seq<Types.Hash>)
    reads States(leaves)
  {
    && |to| == |ls|
    && (forall l :: l in leaves ==> l.se.leafIndex < |ls| && to[l.se.leafIndex] == l.Hash())
    && (forall y :: 0 <= y < |ls| && ls[y] != to[y] ==> exists l :: l in leaves && l.se.leafIndex == y)
  }

  lemma {:induction false} GroupReady(group: seq<ElementLeaf>, leaves: seq<ElementLeaf>, ps: seq<Path>,
                                      ls: seq<Types.Hash>, to: seq<Types.Hash>, h: nat)
    requires group != [] && GroupAt(group, leaves, |ls|, h) && Views(group, ps)
    requires Replaces(leaves, ls, to) && ProvenIn(group, ls)
    ensures Bit(|ls|, h) && Ready(ps, ls, to, h, Shr(|ls|, h) - 1)
    ensures Shr(group[0].se.leafIndex, h) == Shr(|ls|, h) - 1
  {
    var k := Shr(|ls|, h) - 1;
    assert TreeHeight(|ls|, group[0].se.leafIndex) == h;
    forall q | 0 <= q < |ps|
      ensures Shr(ps[q].index, h) == k && |ps[q].proof| == h && ps[q].proof[..h] == Proof(ls, ps[q].index, h)
    {
      assert group[q] in group;
      assert ps[q].proof[..h] == ps[q].proof;
    }
    forall y | 0 <= y < |ls| && ls[y] != to[y] && Shr(y, h) == k
      ensures HasIndex(ps, y)
    {
      TreeHeightUnique(|ls|, y, h);
      var l :| l in leaves && l.se.leafIndex == y;
      assert l in group;
      var q :| 0 <= q < |group| && group[q] == l;
      assert ps[q].index == y;
    }
  }

  lemma {:induction false} MovedProven(sorted: seq<ElementLeaf>, ps: seq<Path>, ls: seq<Types.Hash>, h: nat, k: nat)
    requires Bit(|ls|, h) && k == Shr(|ls|, h) - 1
    requires forall q :: 0 <= q < |ps| ==> Shr(ps[q].index, h) == k && |ps[q].proof| == h && ps[q].index < |ls|
    requires Views(sorted, Moved(ps, ls, h, k))
    ensures ProvenIn(sorted, ls)
  {
    forall l | l in sorted
      ensures l.se.leafIndex < |ls| && l.se.merkleProof == FullProof(ls, l.se.leafIndex)
    {
      var q :| 0 <= q < |sorted| && sorted[q] == l;
      assert ps[q].proof[h..] == [];
      assert Moved(ps, ls, h, k)[q].proof == Proof(ls, ps[q].index, h);
      TreeHeightUnique(|ls|, ps[q].index, h);
    }
  }


  /** Recomputes one tree from its changed leaves. */
  method RecomputeTree(group: seq<ElementLeaf>, height: nat, ghost leaves: seq<ElementLeaf>,
                       ghost ls: seq<Types.Hash>, ghost to: seq<Types.Hash>)
    requires group != [] && GroupAt(group, leaves, |ls|, height)
    requires Replaces(leaves, ls, to) && ProvenIn(group, ls)
    modifies States(group)`merkleProof
    ensures ProvenIn(group, to)
  {
    hide Sub, Shr, Proof, TreeHeight;
    ghost var ps := PathsOf(group);
    GroupReady(group, leaves, ps, ls, to, height);
    ghost var k := Shr(|ls|, height) - 1;
    var start := ClearBits(group[0].se.leafIndex, height);
    var end := start + Pow2(height);
    ShrRange(group[0].se.leafIndex, height, k);
    var _ := Recompute(start, end, group, height, k, ps, ls, to);
    MovedProven(group, ps, to, height, k);
  }

  /** Leaves in trees below height h have moved to to; the others are still over ls. */
  ghost predicate PartlyProven(leaves: seq<ElementLeaf>, ls: seq<Types.Hash>, to: seq<Types.Hash>, h: nat)
    requires |to| == |ls|
    reads States(leaves)
  {
    forall l :: l in leaves ==>
      && l.se.leafIndex < |ls|
      && l.se.merkleProof == FullProof(if TreeHeight(|ls|, l.se.leafIndex) < h then to else ls, l.se.leafIndex)
  }

  method UpdateGroup(group: seq<ElementLeaf>, height: nat, ghost leaves: seq<ElementLeaf>,
                     ghost ls: seq<Types.Hash>, ghost to: seq<Types.Hash>)
    requires GroupAt(group, leaves, |ls|, height) && Replaces(leaves, ls, to) && PartlyProven(leaves, ls, to, height)
    modifies States(leaves)`merkleProof
    ensures PartlyProven(leaves, ls, to, height + 1)
  {
    hide FullProof, TreeHeight;
    if group != [] {
      RecomputeTree(group, height, leaves, ls, to);
    }
  }

  method UpdateTree(trees: seq<seq<ElementLeaf>>, height: nat, ghost leaves: seq<ElementLeaf>,
                    ghost ls: seq<Types.Hash>, ghost to: seq<Types.Hash>)
    requires height < 64 && Grouped(trees, leaves, |ls|)
    requires Replaces(leaves, ls, to) && PartlyProven(leaves, ls, to, height)
    modifies States(leaves)`merkleProof
    ensures PartlyProven(leaves, ls, to, height + 1)
    ensures Grouped(trees, leaves, |ls|) && Replaces(leaves, ls, to)
  {
    hide PartlyProven, TreeHeight;
    assert GroupAt(trees[height], leaves, |ls|, height);
    UpdateGroup(trees[height], height, leaves, ls, to);
    forall h | 0 <= h < 64
      ensures GroupAt(trees[h], leaves, |ls|, h)
    {
      assert old(GroupAt(trees[h], leaves, |ls|, h));
    }
  }

  /** Updates the proofs of the given leaves to reflect the changes in all of them, and returns the
      leaves grouped by tree. */
  method UpdateLeaves(leaves: seq<ElementLeaf>, ghost ls: seq<Types.Hash>, ghost to: seq<Types.Hash>)
    returns (trees: seq<seq<ElementLeaf>>)
    requires Distinct(leaves) && DistinctIndices(leaves) && ProvenIn(leaves, ls) && |ls| < MAX_LEAVES
    requires Replaces(leaves, ls, to)
    modifies States(leaves)`merkleProof
    ensures Grouped(trees, leaves, |ls|) && Replaces(leaves, ls, to) && ProvenIn(leaves, to)
  {
    trees := GroupByTree(leaves, ls);
    for height := 0 to 64
      invariant Grouped(trees, leaves, |ls|) && Replaces(leaves, ls, to)
      invariant PartlyProven(leaves, ls, to, height)
    {
      UpdateTree(trees, height, leaves, ls, to);
    }
    forall l | l in leaves ensures TreeHeight(|ls|, l.se.leafIndex) < 64 { HeightBound(|ls|, l.se.leafIndex); }
  }

  method GroupByTree(leaves: seq<ElementLeaf>, ghost ls: seq<Types.Hash>) returns (trees: seq<seq<ElementLeaf>>)
    requires Distinct(leaves) && DistinctIndices(leaves) && ProvenIn(leaves, ls) && |ls| < MAX_LEAVES
    ensures Grouped(trees, leaves, |ls|)
  {
    var sorted := SortLeaves(leaves);
    trees := GroupLeaves(sorted, ls);
    forall h | 0 <= h < 64
      ensures GroupAt(trees[h], leaves, |ls|, h)
    {
      assert GroupAt(trees[h], sorted, |ls|, h);
    }
  }

  // ---- updateProof ----

  /** Rewrites the proof of e with the help of the closest changed leaf of its tree.  The changed leaves'
      proofs may already reach above that tree. */
  method UpdateProof(e: StateElement, updated: seq<seq<ElementLeaf>>, ghost ups: seq<Path>,
                     ghost base: seq<Types.Hash>, ghost to: seq<Types.Hash>)
    requires |e.merkleProof| < |updated| && Views(updated[|e.merkleProof|], ups)
    requires var h := |e.merkleProof|;
             Repairs(ups, base, to, h, Shr(e.leafIndex, h)) && e.merkleProof == Proof(base, e.leafIndex, h)
    modifies e`merkleProof
    ensures |e.merkleProof| == old(|e.merkleProof|) && e.merkleProof == Proof(to, e.leafIndex, |e.merkleProof|)
  {
    var x, h := e.leafIndex, |e.merkleProof|;
    var updatedInTree := updated[h];
    if updatedInTree == [] {
      RepairedNone(x, base, to, h, Shr(x, h));
      return;
    }
    var best := 0;
    for i := 1 to |updatedInTree|
      invariant best < |ups|
      invariant forall q :: 0 <= q < i ==> MergeHeight(x, ups[best].index) <= MergeHeight(x, ups[q].index)
    {
      if MergeHeight(x, updatedInTree[i].se.leafIndex) < MergeHeight(x, updatedInTree[best].se.leafIndex) {
        best := i;
      }
    }
    RepairedCorrect(x, ups, best, base, to, h, Shr(x, h));
    var b := updatedInTree[best];
    if b.se.leafIndex == x {
      e.merkleProof := b.se.merkleProof[..h];
    } else {
      var mh := MergeHeight(x, b.se.leafIndex);
      XorZero(x, b.se.leafIndex);
      var tail := b.se.merkleProof[mh..h];
      var r := ComputeProofRoot(b.Hash(), b.se.leafIndex, b.se.merkleProof[..mh - 1]);
      e.merkleProof := e.merkleProof[..mh - 1] + [r] + tail;
    }
  }
}
