/** One shared proof for all inputs of a set of transactions. */
module Multiproof {
  import opened Bits
  import opened Types
  import opened Forest
  import opened Elements
  import opened Paths
  import opened Update

  // ---- The reference: the roots of the largest subtrees that hold none of the proven leaves ----

  ghost predicate Touches(S: set<nat>, h: nat, k: nat) {
    exists y :: y in S && Shr(y, h) == k
  }

  ghost function Frontier(ls: seq<Types.Hash>, S: set<nat>, h: nat, k: nat): seq<Types.Hash>
    requires k < Shr(|ls|, h)
  {
    if !Touches(S, h, k) then [Sub(ls, h, k)]
    else if h == 0 then []
    else Frontier(ls, S, h - 1, 2 * k) + Frontier(ls, S, h - 1, 2 * k + 1)
  }

  lemma {:induction false} FrontierNone(ls: seq<Types.Hash>, S: set<nat>, h: nat, k: nat)
    requires k < Shr(|ls|, h) && !Touches(S, h, k)
    ensures Frontier(ls, S, h, k) == [Sub(ls, h, k)]
  {}

  lemma {:induction false} FrontierLeaf(ls: seq<Types.Hash>, S: set<nat>, k: nat)
    requires k < Shr(|ls|, 0) && Touches(S, 0, k)
    ensures Frontier(ls, S, 0, k) == [] && Sub(ls, 0, k) == ls[k]
  {}

  lemma {:induction false} FrontierHalves(ls: seq<Types.Hash>, S: set<nat>, h: nat, k: nat)
    requires h > 0 && k < Shr(|ls|, h) && Touches(S, h, k)
    ensures 2 * k < Shr(|ls|, h - 1) && 2 * k + 1 < Shr(|ls|, h - 1)
    ensures Frontier(ls, S, h, k) == Frontier(ls, S, h - 1, 2 * k) + Frontier(ls, S, h - 1, 2 * k + 1)
  {}

  ghost function TreeFrontier(ls: seq<Types.Hash>, S: set<nat>, h: nat): seq<Types.Hash> {
    if Bit(|ls|, h) && Touches(S, h, Shr(|ls|, h) - 1) then Frontier(ls, S, h, Shr(|ls|, h) - 1) else []
  }

  /** The frontiers of the trees from the given height up, lowest tree first. */
  ghost function SharedFrom(ls: seq<Types.Hash>, S: set<nat>, height: nat): seq<Types.Hash>
    decreases Shr(|ls|, height)
  {
    if Shr(|ls|, height) == 0 then [] else TreeFrontier(ls, S, height) + SharedFrom(ls, S, height + 1)
  }

  lemma {:induction false} SharedStep(ls: seq<Types.Hash>, S: set<nat>, height: nat)
    ensures SharedFrom(ls, S, height) == TreeFrontier(ls, S, height) + SharedFrom(ls, S, height + 1)
  {}

  /** No tree has height 64 or more. */
  lemma {:induction false} SharedEnd(ls: seq<Types.Hash>, S: set<nat>)
    requires |ls| < MAX_LEAVES
    ensures SharedFrom(ls, S, 64) == []
  {
    MaxLeavesPow2();
    ShrSmall(|ls|, 63);
    ShrAdd(|ls|, 63, 1);
  }

  /** The multiproof of the leaves at positions S. */
  ghost function Shared(ls: seq<Types.Hash>, S: set<nat>): seq<Types.Hash> {
    SharedFrom(ls, S, 0)
  }

  // ---- Visiting the leaves below one node ----

  /** The paths, in order of position, are those of the positions of S in row h, column k. */
  ghost predicate Serves(ps: seq<Path>, S: set<nat>, h: nat, k: nat) {
    && (forall p, q :: 0 <= p < q < |ps| ==> ps[p].index <= ps[q].index)
    && (forall q :: 0 <= q < |ps| ==> ps[q].index in S && Shr(ps[q].index, h) == k)
    && (forall y {:trigger HasIndex(ps, y)} :: y in S && Shr(y, h) == k ==> HasIndex(ps, y))
  }

  lemma {:induction false} ServesTouches(ps: seq<Path>, S: set<nat>, h: nat, k: nat)
    requires Serves(ps, S, h, k)
    ensures Touches(S, h, k) <==> ps != []
  {
    if Touches(S, h, k) {
      var y :| y in S && Shr(y, h) == k;
      assert HasIndex(ps, y);
    }
    if ps != [] { assert ps[0].index in S; }
  }

  lemma {:induction false} ServesSplit(ps: seq<Path>, s: nat, S: set<nat>, h: nat, k: nat)
    requires h > 0 && s <= |ps| && Serves(ps, S, h, k)
    requires forall q :: 0 <= q < s ==> ps[q].index < Shl(2 * k + 1, h - 1)
    requires forall q :: s <= q < |ps| ==> ps[q].index >= Shl(2 * k + 1, h - 1)
    ensures Serves(ps[..s], S, h - 1, 2 * k) && Serves(ps[s..], S, h - 1, 2 * k + 1)
  {
    forall q | 0 <= q < |ps|
      ensures Shr(ps[q].index, h - 1) == if q < s then 2 * k else 2 * k + 1
    {
      ShrRange(ps[q].index, h - 1, 2 * k + 1);
    }
    forall y | y in S && Shr(y, h - 1) == 2 * k
      ensures HasIndex(ps[..s], y)
    {
      assert HasIndex(ps, y);
      var q :| 0 <= q < |ps| && ps[q].index == y;
      assert ps[..s][q].index == y;
    }
    forall y | y in S && Shr(y, h - 1) == 2 * k + 1
      ensures HasIndex(ps[s..], y)
    {
      assert HasIndex(ps, y);
      var q :| 0 <= q < |ps| && ps[q].index == y;
      assert ps[s..][q - s].index == y;
    }
  }

  /** The size of the frontier, from the positions alone. */
  method ProofSize(i: nat, j: nat, leaves: seq<ElementLeaf>, ghost h: nat, ghost k: nat, ghost ps: seq<Path>,
                   ghost S: set<nat>, ghost ls: seq<Types.Hash>)
    returns (size: nat)
    requires i == Shl(k, h) && j == Shl(k + 1, h) && k < Shr(|ls|, h) && Views(leaves, ps) && Serves(ps, S, h, k)
    ensures size == |Frontier(ls, S, h, k)|
    decreases h
  {
    hide Frontier, Touches, Sub, Shl;
    ServesTouches(ps, S, h, k);
    RangeHeight(h, k);
    var height := TrailingZeros(j - i);
    if leaves == [] {
      FrontierNone(ls, S, h, k);
      return 1;
    } else if height == 0 {
      FrontierLeaf(ls, S, k);
      return 0;
    }
    MidPoint(h, k);
    FrontierHalves(ls, S, h, k);
    var mid := (i + j) / 2;
    var s := SplitLeaves(leaves, mid, ps);
    ServesSplit(ps, s, S, h, k);
    ViewsSplit(leaves, ps, s);
    var left := ProofSize(i, mid, leaves[..s], h - 1, 2 * k, ps[..s], S, ls);
    var right := ProofSize(mid, j, leaves[s..], h - 1, 2 * k + 1, ps[s..], S, ls);
    size := left + right;
  }

  /** The paths' first h entries are over ls. */
  ghost predicate Over(ps: seq<Path>, ls: seq<Types.Hash>, h: nat) {
    forall q :: 0 <= q < |ps| ==>
      && Shr(ps[q].index, h) < Shr(|ls|, h) && h <= |ps[q].proof|
      && ps[q].proof[..h] == Proof(ls, ps[q].index, h)
  }

  lemma {:induction false} OverBelow(ps: seq<Path>, ls: seq<Types.Hash>, h: nat, q: nat)
    requires h > 0 && Over(ps, ls, h) && q < |ps|
    ensures Shr(ps[q].index, h - 1) < Shr(|ls|, h - 1) && Sibling(Shr(ps[q].index, h - 1)) < Shr(|ls|, h - 1)
    ensures ps[q].proof[..h - 1] == Proof(ls, ps[q].index, h - 1)
    ensures ps[q].proof[h - 1] == Sub(ls, h - 1, Sibling(Shr(ps[q].index, h - 1)))
  {
    var p := ps[q].proof;
    assert p[..h - 1] == p[..h][..h - 1] && p[h - 1] == p[..h][h - 1];
  }

  /** Appends the frontier of one half: the other half's sibling entry if it holds no leaf. */
  method VisitHalf(i: nat, j: nat, half: seq<ElementLeaf>, other: seq<ElementLeaf>, height: nat, proof: seq<Types.Hash>,
                   ghost c: nat, ghost ps: seq<Path>, ghost os: seq<Path>, ghost S: set<nat>, ghost ls: seq<Types.Hash>)
    returns (out: seq<Types.Hash>)
    requires height > 0 && i == Shl(c, height - 1) && j == Shl(c + 1, height - 1) && c < Shr(|ls|, height - 1)
    requires Views(half, ps) && Views(other, os) && half + other != []
    requires Serves(ps, S, height - 1, c) && Over(ps, ls, height - 1)
    requires forall q :: 0 <= q < |os| ==> height <= |os[q].proof| && os[q].proof[height - 1] == Sub(ls, height - 1, c)
    ensures out == proof + Frontier(ls, S, height - 1, c)
    decreases height, 0
  {
    ServesTouches(ps, S, height - 1, c);
    if half == [] {
      out := proof + [other[0].se.merkleProof[height - 1]];
    } else {
      out := VisitCompute(i, j, half, proof, height - 1, c, ps, S, ls);
    }
  }

  /** computeMultiproof below one node. */
  method VisitCompute(i: nat, j: nat, leaves: seq<ElementLeaf>, proof: seq<Types.Hash>, ghost h: nat, ghost k: nat,
                      ghost ps: seq<Path>, ghost S: set<nat>, ghost ls: seq<Types.Hash>)
    returns (out: seq<Types.Hash>)
    requires i == Shl(k, h) && j == Shl(k + 1, h) && k < Shr(|ls|, h)
    requires leaves != [] && Views(leaves, ps) && Serves(ps, S, h, k) && Over(ps, ls, h)
    ensures out == proof + Frontier(ls, S, h, k)
    decreases h, 1
  {
    hide Frontier, Touches, Sub, Proof, Shl, Over;
    ServesTouches(ps, S, h, k);
    RangeHeight(h, k);
    var height := TrailingZeros(j - i);
    if height == 0 {
      FrontierLeaf(ls, S, k);
      return proof;
    }
    MidPoint(h, k);
    FrontierHalves(ls, S, h, k);
    var mid := (i + j) / 2;
    var s := SplitLeaves(leaves, mid, ps);
    ServesSplit(ps, s, S, h, k);
    ViewsSplit(leaves, ps, s);
    OverHalves(ps, s, S, ls, h, k);
    out := VisitHalf(i, mid, leaves[..s], leaves[s..], height, proof, 2 * k, ps[..s], ps[s..], S, ls);
    out := VisitHalf(mid, j, leaves[s..], leaves[..s], height, out, 2 * k + 1, ps[s..], ps[..s], S, ls);
  }

  lemma {:induction false} OverPart(ps: seq<Path>, a: nat, b: nat, S: set<nat>, ls: seq<Types.Hash>,
                                    h: nat, k: nat, c: nat)
    requires h > 0 && a <= b <= |ps| && k < Shr(|ls|, h) && Over(ps, ls, h)
    requires c / 2 == k && Serves(ps[a..b], S, h - 1, c)
    ensures Over(ps[a..b], ls, h - 1) && Sibling(c) < Shr(|ls|, h - 1)
    ensures forall q :: 0 <= q < b - a ==>
              h <= |ps[a..b][q].proof| && ps[a..b][q].proof[h - 1] == Sub(ls, h - 1, Sibling(c))
  {
    hide Sub, Proof;
    forall q | 0 <= q < b - a
      ensures h <= |ps[a..b][q].proof| && ps[a..b][q].proof[h - 1] == Sub(ls, h - 1, Sibling(c))
      ensures Shr(ps[a..b][q].index, h - 1) < Shr(|ls|, h - 1)
      ensures ps[a..b][q].proof[..h - 1] == Proof(ls, ps[a..b][q].index, h - 1)
    {
      OverBelow(ps, ls, h, a + q);
      assert Shr(ps[a..b][q].index, h - 1) == c;
    }
  }

  lemma {:induction false} OverHalves(ps: seq<Path>, s: nat, S: set<nat>, ls: seq<Types.Hash>, h: nat, k: nat)
    requires h > 0 && s <= |ps| && k < Shr(|ls|, h) && Over(ps, ls, h)
    requires Serves(ps[..s], S, h - 1, 2 * k) && Serves(ps[s..], S, h - 1, 2 * k + 1)
    ensures Over(ps[..s], ls, h - 1) && Over(ps[s..], ls, h - 1)
    ensures forall q :: 0 <= q < s ==> h <= |ps[..s][q].proof| && ps[..s][q].proof[h - 1] == Sub(ls, h - 1, 2 * k + 1)
    ensures forall q :: 0 <= q < |ps| - s ==>
              h <= |ps[s..][q].proof| && ps[s..][q].proof[h - 1] == Sub(ls, h - 1, 2 * k)
  {
    hide Sub, Proof, Over, Serves;
    assert ps[0..s] == ps[..s] && ps[s..|ps|] == ps[s..];
    OverPart(ps, 0, s, S, ls, h, k, 2 * k);
    OverPart(ps, s, |ps|, S, ls, h, k, 2 * k + 1);
  }

  /** expandMultiproof below one node: consumes its frontier and writes every proof below it. */
  method VisitExpand(i: nat, j: nat, leaves: seq<ElementLeaf>, proof: seq<Types.Hash>, ghost h: nat, ghost k: nat,
                     ghost ps: seq<Path>, ghost S: set<nat>, ghost ls: seq<Types.Hash>, ghost more: seq<Types.Hash>)
    returns (root: Types.Hash, rest: seq<Types.Hash>)
    requires i == Shl(k, h) && j == Shl(k + 1, h) && k < Shr(|ls|, h)
    requires Distinct(leaves) && Views(leaves, ps) && Serves(ps, S, h, k)
    requires Fillable(ps, ls, h)
    requires proof == Frontier(ls, S, h, k) + more
    modifies States(leaves)`merkleProof
    ensures root == Sub(ls, h, k) && rest == more
    ensures Views(leaves, Moved(ps, ls, h, k))
    decreases h
  {
    hide Frontier, Touches, Sub, Proof, Shl;
    ServesTouches(ps, S, h, k);
    RangeHeight(h, k);
    var height := TrailingZeros(j - i);
    if leaves == [] {
      FrontierNone(ls, S, h, k);
      return proof[0], proof[1..];
    } else if height == 0 {
      FrontierLeaf(ls, S, k);
      MovedNone(ps, ls, k);
      return leaves[0].Hash(), proof;
    }
    MidPoint(h, k);
    FrontierHalves(ls, S, h, k);
    var mid := (i + j) / 2;
    var s := SplitLeaves(leaves, mid, ps);
    ServesSplit(ps, s, S, h, k);
    ViewsSplit(leaves, ps, s);
    DistinctSplit(leaves, s);
    root, rest := ExpandHalves(i, mid, j, leaves[..s], leaves[s..], height, proof, k, ps[..s], ps[s..], S, ls, more);
    MovedSplit(ps, s, ls, h, k);
    ViewsSplit(leaves, Moved(ps, ls, h, k), s);
  }

  method ExpandHalves(i: nat, mid: nat, j: nat, left: seq<ElementLeaf>, right: seq<ElementLeaf>, height: nat,
                      proof: seq<Types.Hash>,
                      ghost k: nat, ghost pl: seq<Path>, ghost pr: seq<Path>, ghost S: set<nat>,
                      ghost ls: seq<Types.Hash>, ghost more: seq<Types.Hash>)
    returns (root: Types.Hash, rest: seq<Types.Hash>)
    requires height > 0 && k < Shr(|ls|, height)
    requires i == Shl(2 * k, height - 1) && mid == Shl(2 * k + 1, height - 1) && j == Shl(2 * k + 2, height - 1)
    requires Distinct(left) && Distinct(right) && States(left) !! States(right)
    requires Views(left, pl) && Fillable(pl, ls, height) && Serves(pl, S, height - 1, 2 * k)
    requires Views(right, pr) && Fillable(pr, ls, height) && Serves(pr, S, height - 1, 2 * k + 1)
    requires proof == Frontier(ls, S, height - 1, 2 * k) + Frontier(ls, S, height - 1, 2 * k + 1) + more
    modifies States(left)`merkleProof, States(right)`merkleProof
    ensures root == Sub(ls, height, k) && rest == more
    ensures forall q :: 0 <= q < |pl| ==> Shr(pl[q].index, height) == k
    ensures forall q :: 0 <= q < |pr| ==> Shr(pr[q].index, height) == k
    ensures Views(left, Moved(pl, ls, height, k)) && Views(right, Moved(pr, ls, height, k))
    decreases height, 0
  {
    var leftRoot, rightRoot;
    ghost var later := Frontier(ls, S, height - 1, 2 * k + 1) + more;
    assert proof == Frontier(ls, S, height - 1, 2 * k) + later;
    leftRoot, rest := VisitExpand(i, mid, left, proof, height - 1, 2 * k, pl, S, ls, later);
    rightRoot, rest := VisitExpand(mid, j, right, rest, height - 1, 2 * k + 1, pr, S, ls, more);
    root := JoinHalves(left, right, height, leftRoot, rightRoot, k, pl, pr, ls);
  }

  /** Writes each half's root into the proofs of the other. */
  method JoinHalves(left: seq<ElementLeaf>, right: seq<ElementLeaf>, height: nat, leftRoot: Types.Hash,
                    rightRoot: Types.Hash,
                    ghost k: nat, ghost pl: seq<Path>, ghost pr: seq<Path>, ghost ls: seq<Types.Hash>)
    returns (root: Types.Hash)
    requires height > 0 && k < Shr(|ls|, height) && Distinct(left) && Distinct(right) && States(left) !! States(right)
    requires leftRoot == Sub(ls, height - 1, 2 * k) && rightRoot == Sub(ls, height - 1, 2 * k + 1)
    requires forall q :: 0 <= q < |pl| ==> Shr(pl[q].index, height - 1) == 2 * k && height <= |pl[q].proof|
    requires forall q :: 0 <= q < |pr| ==> Shr(pr[q].index, height - 1) == 2 * k + 1 && height <= |pr[q].proof|
    requires Views(left, Moved(pl, ls, height - 1, 2 * k)) && Views(right, Moved(pr, ls, height - 1, 2 * k + 1))
    modifies States(left)`merkleProof, States(right)`merkleProof
    ensures root == Sub(ls, height, k)
    ensures forall q :: 0 <= q < |pl| ==> Shr(pl[q].index, height) == k
    ensures forall q :: 0 <= q < |pr| ==> Shr(pr[q].index, height) == k
    ensures Views(left, Moved(pl, ls, height, k)) && Views(right, Moved(pr, ls, height, k))
  {
    WriteSibling(right, height, leftRoot, 2 * k, pr, ls);
    WriteSibling(left, height, rightRoot, 2 * k + 1, pl, ls);
    root := PairHash(leftRoot, rightRoot);
  }

  /** Writes the root of column c into the proofs under its sibling. */
  method WriteSibling(leaves: seq<ElementLeaf>, height: nat, root: Types.Hash, ghost c: nat, ghost ps: seq<Path>,
                      ghost ls: seq<Types.Hash>)
    requires height > 0 && c / 2 < Shr(|ls|, height) && c < Shr(|ls|, height - 1) && root == Sub(ls, height - 1, c)
    requires Sibling(c) < Shr(|ls|, height - 1) && Distinct(leaves)
    requires forall q :: 0 <= q < |ps| ==> Shr(ps[q].index, height - 1) == Sibling(c) && height <= |ps[q].proof|
    requires Views(leaves, Moved(ps, ls, height - 1, Sibling(c)))
    modifies States(leaves)`merkleProof
    ensures forall q :: 0 <= q < |ps| ==> Shr(ps[q].index, height) == c / 2
    ensures Views(leaves, Moved(ps, ls, height, c / 2))
  {
    MovedWithEntry(ps, ls, height, c / 2, c);
    SetEntry(leaves, height - 1, root, Moved(ps, ls, height - 1, Sibling(c)));
  }

  /** The paths have room for h entries, and their leaves are those of ls. */
  ghost predicate Fillable(ps: seq<Path>, ls: seq<Types.Hash>, h: nat) {
    forall q :: 0 <= q < |ps| ==> h <= |ps[q].proof| && ps[q].index < |ls| && ps[q].leaf == ls[ps[q].index]
  }

  // ---- Whole transaction sets ----

  ghost function Positions(leaves: seq<ElementLeaf>): set<nat>
    reads States(leaves)
  {
    set l | l in leaves :: l.se.leafIndex
  }

  /** Every proof has the length fixed by the number of leaves n. */
  ghost predicate Sized(leaves: seq<ElementLeaf>, n: nat)
    reads States(leaves)
  {
    forall l :: l in leaves ==> l.se.leafIndex < n && |l.se.merkleProof| == TreeHeight(n, l.se.leafIndex)
  }

  ghost predicate Bucketed(trees: seq<seq<ElementLeaf>>, leaves: seq<ElementLeaf>, n: nat)
    reads States(leaves)
  {
    |trees| == 64 && forall h :: 0 <= h < 64 ==> BucketAt(trees[h], leaves, n, h)
  }

  /** forEachTree's first loop: the leaves by proof length, in the order they occur. */
  method Bucket(leaves: seq<ElementLeaf>, ghost n: nat) returns (trees: seq<seq<ElementLeaf>>)
    requires Distinct(leaves) && Sized(leaves, n) && n < MAX_LEAVES
    ensures Bucketed(trees, leaves, n)
  {
    trees := seq(64, _ => []);
    for i := 0 to |leaves|
      invariant |trees| == 64 && forall h :: 0 <= h < 64 ==> BucketAt(trees[h], leaves[..i], n, h)
    {
      var l := leaves[i];
      var height := |l.se.merkleProof|;
      HeightBound(n, l.se.leafIndex);
      BucketStep(trees, leaves, i, n, height);
      trees := trees[height := trees[height] + [l]];
    }
    assert leaves[..|leaves|] == leaves;
  }

  lemma {:induction false} BucketStep(trees: seq<seq<ElementLeaf>>, leaves: seq<ElementLeaf>, i: nat, n: nat,
                                      height: nat)
    requires |trees| == 64 && i < |leaves| && Distinct(leaves) && height < 64
    requires leaves[i].se.leafIndex < n && TreeHeight(n, leaves[i].se.leafIndex) == height
    requires forall h :: 0 <= h < 64 ==> BucketAt(trees[h], leaves[..i], n, h)
    ensures var next := trees[height := trees[height] + [leaves[i]]];
            forall h :: 0 <= h < 64 ==> BucketAt(next[h], leaves[..i + 1], n, h)
  {
    var next := trees[height := trees[height] + [leaves[i]]];
    assert leaves[..i + 1] == leaves[..i] + [leaves[i]];
    forall h | 0 <= h < 64
      ensures BucketAt(next[h], leaves[..i + 1], n, h)
    {
      assert BucketAt(trees[h], leaves[..i], n, h);
      if h == height {
        forall q | 0 <= q < |trees[h]|
          ensures trees[h][q].se != leaves[i].se
        {
          assert trees[h][q] in leaves[..i];
        }
      }
    }
  }

  /** A sorted bucket serves its tree's root. */
  lemma {:induction false} BucketServes(group: seq<ElementLeaf>, sorted: seq<ElementLeaf>, leaves: seq<ElementLeaf>,
                                        ps: seq<Path>,
                                        n: nat, h: nat)
    requires BucketAt(group, leaves, n, h) && SameLeaves(sorted, group) && Views(sorted, ps) && Ordered(sorted)
    requires Sized(leaves, n) && Bit(n, h)
    ensures Serves(ps, Positions(leaves), h, Shr(n, h) - 1)
  {
    forall q | 0 <= q < |ps|
      ensures ps[q].index in Positions(leaves) && Shr(ps[q].index, h) == Shr(n, h) - 1
    {
      assert sorted[q] in group;
    }
    forall p, q | 0 <= p < q < |ps|
      ensures ps[p].index <= ps[q].index
    {
      assert sorted[p] in group && sorted[q] in group && Before(sorted[p], sorted[q]);
    }
    forall y | y in Positions(leaves) && Shr(y, h) == Shr(n, h) - 1
      ensures HasIndex(ps, y)
    {
      var l :| l in leaves && l.se.leafIndex == y;
      TreeHeightUnique(n, y, h);
      assert l in group && l in sorted;
      var q :| 0 <= q < |sorted| && sorted[q] == l;
      assert ps[q].index == y;
    }
  }

  /** A tree has a frontier exactly when its bucket has leaves. */
  lemma {:induction false} BucketTouches(group: seq<ElementLeaf>, leaves: seq<ElementLeaf>, ls: seq<Types.Hash>, h: nat)
    requires BucketAt(group, leaves, |ls|, h) && Sized(leaves, |ls|)
    ensures group != [] ==>
              && Bit(|ls|, h)
              && TreeFrontier(ls, Positions(leaves), h) == Frontier(ls, Positions(leaves), h, Shr(|ls|, h) - 1)
    ensures group == [] ==> TreeFrontier(ls, Positions(leaves), h) == []
  {
    hide Frontier;
    if group != [] {
      assert group[0] in group && group[0].se.leafIndex in Positions(leaves);
      assert TreeHeight(|ls|, group[0].se.leafIndex) == h;
    } else if Bit(|ls|, h) && Touches(Positions(leaves), h, Shr(|ls|, h) - 1) {
      var y :| y in Positions(leaves) && Shr(y, h) == Shr(|ls|, h) - 1;
      var l :| l in leaves && l.se.leafIndex == y;
      TreeHeightUnique(|ls|, y, h);
      assert false;
    }
  }

  /** forEachTree's range: clearing one bit more than the tree's height leaves its first position. */
  lemma {:induction false} TreeRange(n: nat, x: nat, h: nat)
    requires x < n && TreeHeight(n, x) == h
    ensures ClearBits(x, h + 1) == Shl(Shr(n, h) - 1, h)
    ensures ClearBits(x, h + 1) + Pow2(h) == Shl(Shr(n, h), h)
  {
    ShlFront(Shr(x, h + 1), h + 1);
    ShrRange(x, h, Shr(x, h));
  }

  /** A tree's leaves in order of position, and the tree's first position. */
  method SortBucket(group: seq<ElementLeaf>, height: nat, ghost leaves: seq<ElementLeaf>, ghost S: set<nat>,
                    ghost n: nat)
    returns (sorted: seq<ElementLeaf>, start: nat)
    requires BucketAt(group, leaves, n, height) && Sized(leaves, n) && group != [] && S == Positions(leaves)
    ensures sorted != [] && BucketAt(sorted, leaves, n, height)
    ensures Bit(n, height) && Serves(PathsOf(sorted), S, height, Shr(n, height) - 1)
    ensures start == Shl(Shr(n, height) - 1, height) && start + Pow2(height) == Shl(Shr(n, height), height)
  {
    sorted := SortLeaves(group);
    assert sorted[0] in group;
    BucketServes(group, sorted, leaves, PathsOf(sorted), n, height);
    TreeRange(n, sorted[0].se.leafIndex, height);
    start := ClearBits(sorted[0].se.leafIndex, height + 1);
  }

  method TreeSize(group: seq<ElementLeaf>, height: nat, ghost leaves: seq<ElementLeaf>, ghost S: set<nat>,
                  ghost ls: seq<Types.Hash>)
    returns (size: nat)
    requires BucketAt(group, leaves, |ls|, height) && Sized(leaves, |ls|) && S == Positions(leaves)
    ensures size == |TreeFrontier(ls, S, height)|
  {
    hide Frontier, TreeFrontier, Shl, Shr, Pow2, Serves, Positions;
    BucketTouches(group, leaves, ls, height);
    if group == [] {
      return 0;
    }
    var sorted, start := SortBucket(group, height, leaves, S, |ls|);
    size := ProofSize(start, start + Pow2(height), sorted, height, Shr(|ls|, height) - 1, PathsOf(sorted), S, ls);
  }

  /** multiproofSize */
  method MultiproofSize(leaves: seq<ElementLeaf>, ghost S: set<nat>, ghost ls: seq<Types.Hash>) returns (size: nat)
    requires Distinct(leaves) && Sized(leaves, |ls|) && |ls| < MAX_LEAVES && S == Positions(leaves)
    ensures size == |Shared(ls, S)|
  {
    hide SharedFrom, TreeFrontier, TreeHeight;
    var trees := Bucket(leaves, |ls|);
    size := 0;
    for height := 0 to 64
      invariant size + |SharedFrom(ls, S, height)| == |Shared(ls, S)|
    {
      SharedStep(ls, S, height);
      assert BucketAt(trees[height], leaves, |ls|, height);
      var n := TreeSize(trees[height], height, leaves, S, ls);
      size := size + n;
    }
    SharedEnd(ls, S);
  }

  lemma {:induction false} ProvenOver(sorted: seq<ElementLeaf>, ls: seq<Types.Hash>, h: nat)
    requires ProvenIn(sorted, ls) && forall l :: l in sorted ==> TreeHeight(|ls|, l.se.leafIndex) == h
    ensures Over(PathsOf(sorted), ls, h)
  {
    var ps := PathsOf(sorted);
    forall q | 0 <= q < |ps|
      ensures Shr(ps[q].index, h) < Shr(|ls|, h) && h <= |ps[q].proof| && ps[q].proof[..h] == Proof(ls, ps[q].index, h)
    {
      assert sorted[q] in sorted;
      assert ps[q].proof[..h] == ps[q].proof;
    }
  }

  method TreeCompute(group: seq<ElementLeaf>, height: nat, proof: seq<Types.Hash>, ghost leaves: seq<ElementLeaf>,
                     ghost S: set<nat>, ghost ls: seq<Types.Hash>)
    returns (out: seq<Types.Hash>)
    requires BucketAt(group, leaves, |ls|, height) && ProvenIn(leaves, ls) && S == Positions(leaves)
    ensures out == proof + TreeFrontier(ls, S, height)
  {
    hide Frontier, TreeFrontier, Shl, Shr, Pow2, Serves, Over, FullProof, Positions;
    BucketTouches(group, leaves, ls, height);
    if group == [] {
      return proof;
    }
    var sorted, start := SortBucket(group, height, leaves, S, |ls|);
    ProvenOver(sorted, ls, height);
    out := VisitCompute(start, start + Pow2(height), sorted, proof, height,
                        Shr(|ls|, height) - 1, PathsOf(sorted), S, ls);
  }

  /** computeMultiproof: the frontier of all proven leaves, tree by tree. */
  method ComputeMultiproof(leaves: seq<ElementLeaf>, ghost S: set<nat>, ghost ls: seq<Types.Hash>)
    returns (proof: seq<Types.Hash>)
    requires Distinct(leaves) && ProvenIn(leaves, ls) && |ls| < MAX_LEAVES && S == Positions(leaves)
    ensures proof == Shared(ls, S)
  {
    hide SharedFrom;
    var trees := Bucket(leaves, |ls|);
    proof := [];
    for height := 0 to 64
      invariant proof + SharedFrom(ls, S, height) == SharedFrom(ls, S, 0)
    {
      proof := ComputeTree(trees, height, proof, leaves, S, ls);
    }
    SharedEnd(ls, S);
  }

  method ComputeTree(trees: seq<seq<ElementLeaf>>, height: nat, proof: seq<Types.Hash>, ghost leaves: seq<ElementLeaf>,
                     ghost S: set<nat>, ghost ls: seq<Types.Hash>)
    returns (out: seq<Types.Hash>)
    requires height < 64 && Bucketed(trees, leaves, |ls|) && ProvenIn(leaves, ls) && S == Positions(leaves)
    ensures out + SharedFrom(ls, S, height + 1) == proof + SharedFrom(ls, S, height)
  {
    assert BucketAt(trees[height], leaves, |ls|, height);
    SharedStep(ls, S, height);
    out := TreeCompute(trees[height], height, proof, leaves, S, ls);
  }

  /** The leaves are those of ls, with proofs of the right length, and complete below tree height h. */
  ghost predicate Filled(leaves: seq<ElementLeaf>, ls: seq<Types.Hash>, h: nat)
    reads States(leaves)
  {
    forall l :: l in leaves ==>
      && l.se.leafIndex < |ls| && ls[l.se.leafIndex] == l.Hash()
      && |l.se.merkleProof| == TreeHeight(|ls|, l.se.leafIndex)
      && (TreeHeight(|ls|, l.se.leafIndex) < h ==> l.se.merkleProof == FullProof(ls, l.se.leafIndex))
  }

  method ExpandGroup(sorted: seq<ElementLeaf>, start: nat, height: nat, proof: seq<Types.Hash>, ghost S: set<nat>,
                     ghost ls: seq<Types.Hash>, ghost more: seq<Types.Hash>)
    returns (rest: seq<Types.Hash>)
    requires Distinct(sorted) && Bit(|ls|, height) && Serves(PathsOf(sorted), S, height, Shr(|ls|, height) - 1)
    requires start == Shl(Shr(|ls|, height) - 1, height) && start + Pow2(height) == Shl(Shr(|ls|, height), height)
    requires Filled(sorted, ls, height) && forall l :: l in sorted ==> |l.se.merkleProof| == height
    requires proof == Frontier(ls, S, height, Shr(|ls|, height) - 1) + more
    modifies States(sorted)`merkleProof
    ensures rest == more && ProvenIn(sorted, ls)
  {
    hide Frontier, Shl, Pow2, Serves;
    ghost var ps, k := PathsOf(sorted), Shr(|ls|, height) - 1;
    assert Fillable(ps, ls, height) by {
      forall q | 0 <= q < |ps|
        ensures ps[q].leaf == ls[ps[q].index] && |ps[q].proof| == height
      {
        assert sorted[q] in sorted;
      }
    }
    var _, r := VisitExpand(start, start + Pow2(height), sorted, proof, height, k, ps, S, ls, more);
    rest := r;
    MovedProven(sorted, ps, ls, height, k);
  }

  /** Filling one tree's leaves leaves the other trees' alone. */
  method ExpandSorted(sorted: seq<ElementLeaf>, start: nat, height: nat, proof: seq<Types.Hash>,
                      ghost leaves: seq<ElementLeaf>,
                      ghost S: set<nat>, ghost ls: seq<Types.Hash>, ghost more: seq<Types.Hash>)
    returns (rest: seq<Types.Hash>)
    requires BucketAt(sorted, leaves, |ls|, height) && Filled(leaves, ls, height)
    requires Bit(|ls|, height) && Serves(PathsOf(sorted), S, height, Shr(|ls|, height) - 1)
    requires start == Shl(Shr(|ls|, height) - 1, height) && start + Pow2(height) == Shl(Shr(|ls|, height), height)
    requires proof == Frontier(ls, S, height, Shr(|ls|, height) - 1) + more
    modifies States(leaves)`merkleProof
    ensures rest == more && Filled(leaves, ls, height + 1)
  {
    hide Frontier, Shr, Shl, Pow2, Serves, FullProof, TreeHeight;
    rest := ExpandGroup(sorted, start, height, proof, S, ls, more);
  }

  method TreeExpand(group: seq<ElementLeaf>, height: nat, proof: seq<Types.Hash>, ghost leaves: seq<ElementLeaf>,
                    ghost S: set<nat>, ghost ls: seq<Types.Hash>, ghost more: seq<Types.Hash>)
    returns (rest: seq<Types.Hash>)
    requires BucketAt(group, leaves, |ls|, height) && Filled(leaves, ls, height) && S == Positions(leaves)
    requires proof == TreeFrontier(ls, S, height) + more
    modifies States(leaves)`merkleProof
    ensures rest == more && Filled(leaves, ls, height + 1)
  {
    hide Frontier, TreeFrontier, Shr, Shl, Pow2, Serves, FullProof, Positions;
    BucketTouches(group, leaves, ls, height);
    if group == [] {
      return proof;
    }
    var sorted, start := SortBucket(group, height, leaves, S, |ls|);
    rest := ExpandSorted(sorted, start, height, proof, leaves, S, ls, more);
  }

  // ---- Encoding and decoding ----

  /** The number of leaves inferred from positions and proof lengths. */
  method InferNumLeaves(leaves: seq<ElementLeaf>, ghost n: nat) returns (numLeaves: nat)
    requires Sized(leaves, n)
    ensures forall l :: l in leaves ==>
              l.se.leafIndex < numLeaves && TreeHeight(numLeaves, l.se.leafIndex) == TreeHeight(n, l.se.leafIndex)
  {
    numLeaves := 0;
    ghost var low: nat := 0;
    for i := 0 to |leaves|
      invariant i > 0 ==> numLeaves == ClearBits(n, low)
      invariant i == 0 ==> numLeaves == 0
      invariant forall j :: 0 <= j < i ==> low <= TreeHeight(n, leaves[j].se.leafIndex)
    {
      var x, len := leaves[i].se.leafIndex, |leaves[i].se.merkleProof|;
      OrTree(n, x, len);
      OrZero(ClearBits(n, len));
      if i > 0 {
        OrCleared(n, if low <= len then low else len, if low <= len then len else low);
        OrSymmetric(ClearBits(n, low), ClearBits(n, len));
      }
      numLeaves := Or(numLeaves, Or(ClearBits(x, len), Pow2(len)));
      low := if i == 0 || len < low then len else low;
    }
    forall l | l in leaves
      ensures l.se.leafIndex < numLeaves && TreeHeight(numLeaves, l.se.leafIndex) == TreeHeight(n, l.se.leafIndex)
    {
      var j :| 0 <= j < |leaves| && leaves[j] == l;
      ClearedHeight(n, l.se.leafIndex, low);
    }
  }

  lemma {:induction false} ClearedHeight(n: nat, x: nat, low: nat)
    requires x < n && low <= TreeHeight(n, x)
    ensures x < ClearBits(n, low) && TreeHeight(ClearBits(n, low), x) == TreeHeight(n, x)
  {
    var m, h := ClearBits(n, low), TreeHeight(n, x);
    ShrShl(Shr(n, low), low);
    ShrEqualAbove(m, n, low, h);
    ShrEqualAbove(m, n, low, h + 1);
    if m <= x { ShrMonotone(m, x, h); }
    TreeHeightUnique(m, x, h);
  }

  /** EncodeTo: the inferred number of leaves and the shared proof. */
  method Encode(leaves: seq<ElementLeaf>, ghost S: set<nat>, ghost ls: seq<Types.Hash>)
    returns (numLeaves: nat, proof: seq<Types.Hash>)
    requires Distinct(leaves) && ProvenIn(leaves, ls) && |ls| < MAX_LEAVES && S == Positions(leaves)
    ensures proof == Shared(ls, S)
    ensures forall l :: l in leaves ==>
              l.se.leafIndex < numLeaves && TreeHeight(numLeaves, l.se.leafIndex) == TreeHeight(|ls|, l.se.leafIndex)
  {
    numLeaves := InferNumLeaves(leaves, |ls|);
    proof := ComputeMultiproof(leaves, S, ls);
  }

  /** Gives every proof the length that numLeaves fixes; a position at or beyond it is an error. */
  method MakeProofs(leaves: seq<ElementLeaf>, numLeaves: nat) returns (ok: bool)
    requires Distinct(leaves)
    modifies States(leaves)`merkleProof
    ensures ok <==> forall l :: l in leaves ==> l.se.leafIndex < numLeaves
    ensures ok ==> forall l :: l in leaves ==> |l.se.merkleProof| == TreeHeight(numLeaves, l.se.leafIndex)
  {
    ok := true;
    for i := 0 to |leaves|
      invariant ok <==> forall j :: 0 <= j < i ==> leaves[j].se.leafIndex < numLeaves
      invariant ok ==> forall j :: 0 <= j < i ==>
                         |leaves[j].se.merkleProof| == TreeHeight(numLeaves, leaves[j].se.leafIndex)
    {
      var x := leaves[i].se.leafIndex;
      if x >= numLeaves {
        ok := false;
      } else {
        XorSymmetric(x, numLeaves);
        XorZero(x, numLeaves);
        leaves[i].se.merkleProof := seq(Len(Xor(x, numLeaves)) - 1, _ => OtherHash(0));
      }
    }
  }

  /** expandMultiproof: restores every proof and leaves what follows the multiproof. */
  method ExpandMultiproof(leaves: seq<ElementLeaf>, stream: seq<Types.Hash>, ghost S: set<nat>,
                          ghost ls: seq<Types.Hash>, ghost more: seq<Types.Hash>)
    returns (rest: seq<Types.Hash>)
    requires Distinct(leaves) && Filled(leaves, ls, 0) && |ls| < MAX_LEAVES && S == Positions(leaves)
    requires stream == Shared(ls, S) + more
    modifies States(leaves)`merkleProof
    ensures rest == more && ProvenIn(leaves, ls)
  {
    var trees := Bucket(leaves, |ls|);
    rest := stream;
    for height := 0 to 64
      invariant Filled(leaves, ls, height) && Bucketed(trees, leaves, |ls|) && S == Positions(leaves)
      invariant rest == SharedFrom(ls, S, height) + more
    {
      rest := ExpandTree(trees, height, rest, leaves, S, ls, more);
    }
    SharedEnd(ls, S);
    FilledProven(leaves, ls);
  }

  lemma {:induction false} FilledProven(leaves: seq<ElementLeaf>, ls: seq<Types.Hash>)
    requires Filled(leaves, ls, 64) && |ls| < MAX_LEAVES
    ensures ProvenIn(leaves, ls)
  {
    forall l | l in leaves ensures TreeHeight(|ls|, l.se.leafIndex) < 64 { HeightBound(|ls|, l.se.leafIndex); }
  }

  method ExpandTree(trees: seq<seq<ElementLeaf>>, height: nat, proof: seq<Types.Hash>, ghost leaves: seq<ElementLeaf>,
                    ghost S: set<nat>, ghost ls: seq<Types.Hash>, ghost more: seq<Types.Hash>)
    returns (rest: seq<Types.Hash>)
    requires height < 64 && Bucketed(trees, leaves, |ls|) && Filled(leaves, ls, height) && S == Positions(leaves)
    requires proof == SharedFrom(ls, S, height) + more
    modifies States(leaves)`merkleProof
    ensures rest == SharedFrom(ls, S, height + 1) + more
    ensures Filled(leaves, ls, height + 1) && Bucketed(trees, leaves, |ls|) && S == Positions(leaves)
  {
    assert BucketAt(trees[height], leaves, |ls|, height);
    SharedStep(ls, S, height);
    assert proof == TreeFrontier(ls, S, height) + (SharedFrom(ls, S, height + 1) + more);
    rest := TreeExpand(trees[height], height, proof, leaves, S, ls, SharedFrom(ls, S, height + 1) + more);
    forall h | 0 <= h < 64
      ensures BucketAt(trees[h], leaves, |ls|, h)
    {
      assert old(BucketAt(trees[h], leaves, |ls|, h));
    }
    assert Positions(leaves) == old(Positions(leaves));
  }

  /** DecodeFrom: rejects a position outside the inferred forest and a stream that ends early, and otherwise
      restores exactly the proofs that were encoded. */
  method Decode(leaves: seq<ElementLeaf>, numLeaves: nat, stream: seq<Types.Hash>, ghost S: set<nat>,
                ghost ls: seq<Types.Hash>)
    returns (ok: bool, rest: seq<Types.Hash>)
    requires Distinct(leaves) && |ls| < MAX_LEAVES && S == Positions(leaves)
    requires forall l :: l in leaves && l.se.leafIndex < numLeaves ==>
               && l.se.leafIndex < |ls| && ls[l.se.leafIndex] == l.Hash()
               && TreeHeight(numLeaves, l.se.leafIndex) == TreeHeight(|ls|, l.se.leafIndex)
    requires |stream| >= |Shared(ls, S)| ==> Shared(ls, S) <= stream
    modifies States(leaves)`merkleProof
    ensures ok <==> (forall l :: l in leaves ==> l.se.leafIndex < numLeaves) && |stream| >= |Shared(ls, S)|
    ensures ok ==> ProvenIn(leaves, ls) && stream == Shared(ls, S) + rest
  {
    hide Shared, FullProof;
    ok := MakeProofs(leaves, numLeaves);
    if !ok {
      return false, stream;
    }
    assert Positions(leaves) == old(Positions(leaves));
    var size := MultiproofSize(leaves, S, ls);
    if |stream| < size {
      return false, [];
    }
    var multiproof := stream[..size];
    assert multiproof == Shared(ls, S) + [];
    var _ := ExpandMultiproof(leaves, multiproof, S, ls, []);
    rest := stream[size..];
  }
}
