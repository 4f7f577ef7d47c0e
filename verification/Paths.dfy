/** Proofs as values: how recomputing a subtree changes the proofs of the leaves below it. */
module Paths {
  import opened Bits
  import opened Types
  import opened Forest
  import opened Elements

  predicate Ascending(ps: seq<Path>) {
    forall p, q :: 0 <= p < q < |ps| ==> ps[p].index < ps[q].index
  }

  predicate HasIndex(ps: seq<Path>, y: nat) {
    exists q :: 0 <= q < |ps| && ps[q].index == y
  }

  /** The paths lie in row h, column k; their first h entries are over ls and their leaves over to, and
      no other leaf of the column differs between ls and to. */
  ghost predicate Ready(ps: seq<Path>, ls: seq<Hash>, to: seq<Hash>, h: nat, k: nat) {
    && |to| == |ls| && k < Shr(|ls|, h)
    && Ascending(ps)
    && (forall q :: 0 <= q < |ps| ==>
          && Shr(ps[q].index, h) == k && h <= |ps[q].proof| && ps[q].proof[..h] == Proof(ls, ps[q].index, h)
          && ps[q].index < |to| && ps[q].leaf == to[ps[q].index])
    && (forall y {:trigger HasIndex(ps, y)} :: 0 <= y < |ls| && ls[y] != to[y] && Shr(y, h) == k ==> HasIndex(ps, y))
  }

  /** The paths with their first h entries taken over to. */
  ghost function Moved(ps: seq<Path>, to: seq<Hash>, h: nat, k: nat): seq<Path>
    requires k < Shr(|to|, h)
    requires forall q :: 0 <= q < |ps| ==> Shr(ps[q].index, h) == k && h <= |ps[q].proof|
  {
    seq(|ps|, q requires 0 <= q < |ps| => ps[q].(proof := Proof(to, ps[q].index, h) + ps[q].proof[h..]))
  }

  /** The paths with entry g of every proof overwritten. */
  function WithEntry(ps: seq<Path>, g: nat, h: Hash): seq<Path>
    requires forall q :: 0 <= q < |ps| ==> g < |ps[q].proof|
  {
    seq(|ps|, q requires 0 <= q < |ps| => ps[q].(proof := ps[q].proof[g := h]))
  }

  lemma {:induction false} ReadyBelow(ps: seq<Path>, ls: seq<Hash>, to: seq<Hash>, h: nat, k: nat, q: nat)
    requires h > 0 && Ready(ps, ls, to, h, k) && q < |ps|
    ensures ps[q].proof[..h - 1] == Proof(ls, ps[q].index, h - 1)
    ensures Shr(ps[q].index, h - 1) == if ps[q].index < Shl(2 * k + 1, h - 1) then 2 * k else 2 * k + 1
  {
    var p := ps[q].proof;
    assert p[..h - 1] == p[..h][..h - 1];
    ShrRange(ps[q].index, h - 1, 2 * k + 1);
  }

  lemma {:induction false} ReadySplit(ps: seq<Path>, s: nat, ls: seq<Hash>, to: seq<Hash>, h: nat, k: nat)
    requires h > 0 && s <= |ps| && Ready(ps, ls, to, h, k)
    requires forall q :: 0 <= q < s ==> ps[q].index < Shl(2 * k + 1, h - 1)
    requires forall q :: s <= q < |ps| ==> ps[q].index >= Shl(2 * k + 1, h - 1)
    ensures Ready(ps[..s], ls, to, h - 1, 2 * k) && Ready(ps[s..], ls, to, h - 1, 2 * k + 1)
  {
    ReadyPart(ps, 0, s, ls, to, h, k, 2 * k);
    ReadyPart(ps, s, |ps|, ls, to, h, k, 2 * k + 1);
    assert ps[0..s] == ps[..s] && ps[s..|ps|] == ps[s..];
  }

  /** The paths from a to b are all those of column c below. */
  /** The updated places of a half are those of its part of the paths. */
  lemma {:induction false} PartCovers(ps: seq<Path>, a: nat, b: nat, ls: seq<Hash>, to: seq<Hash>, h: nat, k: nat,
                                      c: nat, y: nat)
    requires h > 0 && a <= b <= |ps| && Ready(ps, ls, to, h, k) && c / 2 == k
    requires forall q :: 0 <= q < |ps| ==> (a <= q < b <==> Shr(ps[q].index, h - 1) == c)
    requires y < |ls| && ls[y] != to[y] && Shr(y, h - 1) == c
    ensures HasIndex(ps[a..b], y)
  {
    hide Proof, Shl;
    assert HasIndex(ps, y);
    var q :| 0 <= q < |ps| && ps[q].index == y;
    assert ps[a..b][q - a].index == y;
  }

  lemma {:induction false} ReadyPart(ps: seq<Path>, a: nat, b: nat, ls: seq<Hash>, to: seq<Hash>, h: nat, k: nat,
                                     c: nat)
    requires h > 0 && a <= b <= |ps| && Ready(ps, ls, to, h, k) && (c == 2 * k || c == 2 * k + 1)
    requires forall q :: 0 <= q < |ps| ==> (a <= q < b <==> (ps[q].index < Shl(2 * k + 1, h - 1) <==> c == 2 * k))
    ensures Ready(ps[a..b], ls, to, h - 1, c)
  {
    hide Proof, Shl;
    forall q | 0 <= q < |ps|
      ensures ps[q].proof[..h - 1] == Proof(ls, ps[q].index, h - 1) && (Shr(ps[q].index, h - 1) == c <==> a <= q < b)
    {
      ReadyBelow(ps, ls, to, h, k, q);
    }
    forall y | 0 <= y < |ls| && ls[y] != to[y] && Shr(y, h - 1) == c
      ensures HasIndex(ps[a..b], y)
    {
      PartCovers(ps, a, b, ls, to, h, k, c, y);
    }
  }

  /** Entry h - 1 of every path is the sibling subtree's root over ls. */
  lemma {:induction false} ReadyEntry(ps: seq<Path>, ls: seq<Hash>, to: seq<Hash>, h: nat, k: nat, q: nat)
    requires h > 0 && Ready(ps, ls, to, h, k) && q < |ps|
    ensures Sibling(Shr(ps[q].index, h - 1)) < Shr(|ls|, h - 1)
    ensures ps[q].proof[h - 1] == Sub(ls, h - 1, Sibling(Shr(ps[q].index, h - 1)))
  {
    var p := ps[q].proof;
    assert p[h - 1] == p[..h][h - 1];
  }

  /** A column without paths is the same over ls and to. */
  lemma {:induction false} ReadyEmpty(ls: seq<Hash>, to: seq<Hash>, h: nat, k: nat)
    requires Ready([], ls, to, h, k)
    ensures Sub(ls, h, k) == Sub(to, h, k)
  {
    forall y | 0 <= y < |ls| && Shr(y, h) == k
      ensures ls[y] == to[y]
    {
      assert !HasIndex([], y);
    }
    SubAgree(ls, to, h, k);
  }

  /** Writing an entry above row h does not disturb what lies below. */
  lemma {:induction false} ReadyWithEntry(ps: seq<Path>, ls: seq<Hash>, to: seq<Hash>, h: nat, k: nat, r: Hash)
    requires Ready(ps, ls, to, h, k) && forall q :: 0 <= q < |ps| ==> h < |ps[q].proof|
    ensures Ready(WithEntry(ps, h, r), ls, to, h, k)
  {
    var ws := WithEntry(ps, h, r);
    forall q | 0 <= q < |ps|
      ensures ws[q].proof[..h] == ps[q].proof[..h]
    {}
    forall y | 0 <= y < |ls| && ls[y] != to[y] && Shr(y, h) == k
      ensures HasIndex(ws, y)
    {
      assert HasIndex(ps, y);
      var q :| 0 <= q < |ps| && ps[q].index == y;
      assert ws[q].index == y;
    }
  }

  /** Moving below row h - 1 and writing the sibling's new root there moves below row h. */
  lemma {:induction false} PathWithEntry(x: nat, proof: seq<Hash>, to: seq<Hash>, h: nat, k: nat, c: nat)
    requires h > 0 && k < Shr(|to|, h) && c < Shr(|to|, h - 1) && c / 2 == k
    requires Shr(x, h - 1) == Sibling(c) && h <= |proof|
    ensures Shr(x, h) == k && Shr(x, h - 1) < Shr(|to|, h - 1)
    ensures (Proof(to, x, h - 1) + proof[h - 1..])[h - 1 := Sub(to, h - 1, c)] == Proof(to, x, h) + proof[h..]
    ensures Proof(to, x, h - 1) + proof[h - 1 := Sub(to, h - 1, c)][h - 1..] == Proof(to, x, h) + proof[h..]
  {
    hide Sub;
    assert Sibling(Shr(x, h - 1)) == c;
  }

  lemma {:induction false} MovedWithEntry(ps: seq<Path>, to: seq<Hash>, h: nat, k: nat, c: nat)
    requires h > 0 && k < Shr(|to|, h) && c < Shr(|to|, h - 1) && c / 2 == k
    requires forall q :: 0 <= q < |ps| ==> Shr(ps[q].index, h - 1) == Sibling(c) && h <= |ps[q].proof|
    ensures Sibling(c) < Shr(|to|, h - 1)
    ensures forall q :: 0 <= q < |ps| ==> Shr(ps[q].index, h) == k
    ensures WithEntry(Moved(ps, to, h - 1, Sibling(c)), h - 1, Sub(to, h - 1, c)) == Moved(ps, to, h, k)
    ensures Moved(WithEntry(ps, h - 1, Sub(to, h - 1, c)), to, h - 1, Sibling(c)) == Moved(ps, to, h, k)
  {
    hide Sub, Proof;
    var r := Sub(to, h - 1, c);
    forall q | 0 <= q < |ps|
      ensures Shr(ps[q].index, h) == k
      ensures (Proof(to, ps[q].index, h - 1) + ps[q].proof[h - 1..])[h - 1 := r]
           == Proof(to, ps[q].index, h) + ps[q].proof[h..]
      ensures Proof(to, ps[q].index, h - 1) + ps[q].proof[h - 1 := r][h - 1..]
           == Proof(to, ps[q].index, h) + ps[q].proof[h..]
    {
      PathWithEntry(ps[q].index, ps[q].proof, to, h, k, c);
    }
  }

  lemma {:induction false} WithEntrySame(ps: seq<Path>, g: nat, r: Hash)
    requires forall q :: 0 <= q < |ps| ==> g < |ps[q].proof| && ps[q].proof[g] == r
    ensures WithEntry(ps, g, r) == ps
  {
    forall q | 0 <= q < |ps|
      ensures WithEntry(ps, g, r)[q] == ps[q]
    {
      assert ps[q].proof[g := r] == ps[q].proof;
    }
  }

  lemma {:induction false} MovedNone(ps: seq<Path>, to: seq<Hash>, k: nat)
    requires k < Shr(|to|, 0) && forall q :: 0 <= q < |ps| ==> Shr(ps[q].index, 0) == k
    ensures Moved(ps, to, 0, k) == ps
  {
    forall q | 0 <= q < |ps|
      ensures Moved(ps, to, 0, k)[q] == ps[q]
    {
      assert [] + ps[q].proof[0..] == ps[q].proof;
    }
  }

  /** Both halves of a column are ready, and each path's entry in row h - 1 is the other half's root. */
  lemma {:induction false} ReadyHalves(ps: seq<Path>, s: nat, ls: seq<Hash>, to: seq<Hash>, h: nat, k: nat)
    requires h > 0 && s <= |ps| && Ready(ps, ls, to, h, k)
    requires forall q :: 0 <= q < s ==> ps[q].index < Shl(2 * k + 1, h - 1)
    requires forall q :: s <= q < |ps| ==> ps[q].index >= Shl(2 * k + 1, h - 1)
    ensures Ready(ps[..s], ls, to, h - 1, 2 * k) && Ready(ps[s..], ls, to, h - 1, 2 * k + 1)
    ensures forall q :: 0 <= q < s ==> h <= |ps[..s][q].proof| && ps[..s][q].proof[h - 1] == Sub(ls, h - 1, 2 * k + 1)
    ensures forall q :: 0 <= q < |ps| - s ==>
              h <= |ps[s..][q].proof| && ps[s..][q].proof[h - 1] == Sub(ls, h - 1, 2 * k)
  {
    ReadySplit(ps, s, ls, to, h, k);
    forall q | 0 <= q < s
      ensures ps[..s][q].proof[h - 1] == Sub(ls, h - 1, 2 * k + 1)
    {
      ReadyEntry(ps, ls, to, h, k, q);
    }
    forall q | 0 <= q < |ps| - s
      ensures ps[s..][q].proof[h - 1] == Sub(ls, h - 1, 2 * k)
    {
      ReadyEntry(ps, ls, to, h, k, s + q);
    }
  }

  /** Moving both halves below row h - 1 and exchanging their roots moves the whole column. */
  lemma {:induction false} MovedHalves(ps: seq<Path>, s: nat, ls: seq<Hash>, to: seq<Hash>, h: nat, k: nat)
    requires h > 0 && s <= |ps| && Ready(ps, ls, to, h, k)
    requires Ready(ps[..s], ls, to, h - 1, 2 * k) && Ready(ps[s..], ls, to, h - 1, 2 * k + 1)
    ensures Ready(WithEntry(ps[s..], h - 1, Sub(to, h - 1, 2 * k)), ls, to, h - 1, 2 * k + 1)
    ensures WithEntry(Moved(ps[..s], to, h - 1, 2 * k), h - 1, Sub(to, h - 1, 2 * k + 1))
         == Moved(ps, to, h, k)[..s]
    ensures Moved(WithEntry(ps[s..], h - 1, Sub(to, h - 1, 2 * k)), to, h - 1, 2 * k + 1)
         == Moved(ps, to, h, k)[s..]
  {
    hide Sub, Proof;
    ReadyWithEntry(ps[s..], ls, to, h - 1, 2 * k + 1, Sub(to, h - 1, 2 * k));
    MovedWithEntry(ps[..s], to, h, k, 2 * k + 1);
    MovedWithEntry(ps[s..], to, h, k, 2 * k);
  }

  // ---- Repairing the proof of a leaf that did not change itself ----

  /** Paths over to, in row h, column k, covering every leaf of that column where base and to differ. */
  ghost predicate Repairs(ups: seq<Path>, base: seq<Hash>, to: seq<Hash>, h: nat, k: nat) {
    && k < Shr(|base|, h) && k < Shr(|to|, h)
    && (forall q :: 0 <= q < |ups| ==>
          && Shr(ups[q].index, h) == k && h <= |ups[q].proof| && ups[q].proof[..h] == Proof(to, ups[q].index, h)
          && ups[q].index < |to| && ups[q].leaf == to[ups[q].index])
    && (forall y {:trigger HasIndex(ups, y)} :: 0 <= y < |base| && y < |to| && base[y] != to[y] && Shr(y, h) == k ==>
          HasIndex(ups, y))
  }

  /** Below the lowest row in which x meets a changed leaf, its siblings are unchanged. */
  lemma {:induction false} EntryKept(x: nat, best: nat, ups: seq<Path>, base: seq<Hash>, to: seq<Hash>, h: nat, k: nat,
                                     g: nat)
    requires Repairs(ups, base, to, h, k) && Shr(x, h) == k && g < h
    requires forall q :: 0 <= q < |ups| ==> best <= MergeHeight(x, ups[q].index)
    requires g + 1 < best
    ensures Proof(base, x, h)[g] == Proof(to, x, h)[g]
  {
    ProofAt(base, x, h, g);
    ProofAt(to, x, h, g);
    var c := Sibling(Shr(x, g));
    forall y | 0 <= y < |base| && y < |to| && Shr(y, g) == c
      ensures base[y] == to[y]
    {
      assert Shr(y, g + 1) == Shr(x, g + 1);
      ShrEqualAbove(x, y, g + 1, h);
      if base[y] != to[y] {
        assert HasIndex(ups, y);
        var q :| 0 <= q < |ups| && ups[q].index == y;
        MergeHeightIff(x, y, g + 1);
        assert false;
      }
    }
    SubAgree(base, to, g, c);
  }

  /** updateProof, on values: the proof of x repaired with the closest changed path b, or kept if there
      are none. */
  function Repaired(x: nat, proof: seq<Hash>, b: Path): seq<Hash>
    requires |proof| <= |b.proof| && MergeHeight(x, b.index) <= |proof|
  {
    XorZero(x, b.index);
    var mh := MergeHeight(x, b.index);
    if b.index == x then b.proof[..|proof|]
    else proof[..mh - 1] + [ProofRoot(b.leaf, b.index, b.proof[..mh - 1])] + b.proof[mh..|proof|]
  }

  /** At the merge point of x and y the sibling is the subtree of y, whose root y's path leads to. */
  lemma {:induction false} MergeEntry(x: nat, y: nat, to: seq<Hash>, h: nat, proof: seq<Hash>)
    requires x != y && Shr(x, h) == Shr(y, h) < Shr(|to|, h) && y < |to|
    requires h <= |proof| && proof[..h] == Proof(to, y, h)
    ensures 0 < MergeHeight(x, y) <= h
    ensures var mh := MergeHeight(x, y); ProofRoot(to[y], y, proof[..mh - 1]) == Proof(to, x, h)[mh - 1]
  {
    hide Shr, Proof, Sub, MergeHeight;
    var mh := MergeHeight(x, y);
    MergeColumns(x, y, h);
    ProofAt(to, x, h, mh - 1);
    ProofPrefix(to, y, h, mh - 1);
    assert proof[..mh - 1] == proof[..h][..mh - 1];
    ProofRootOfProof(to, y, mh - 1);
  }

  lemma {:induction false} MergeColumns(x: nat, y: nat, h: nat)
    requires x != y && Shr(x, h) == Shr(y, h)
    ensures var mh := MergeHeight(x, y);
            && 0 < mh <= h && Shr(x, mh) == Shr(y, mh) && Shr(x, mh - 1) != Shr(y, mh - 1)
            && Sibling(Shr(x, mh - 1)) == Shr(y, mh - 1)
  {
    XorZero(x, y);
    MergeHeightIff(x, y, h);
    MergeHeightIff(x, y, MergeHeight(x, y));
    MergeHeightIff(x, y, MergeHeight(x, y) - 1);
  }

  lemma {:induction false} RepairedCorrect(x: nat, ups: seq<Path>, b: nat, base: seq<Hash>, to: seq<Hash>, h: nat,
                                           k: nat)
    requires Repairs(ups, base, to, h, k) && Shr(x, h) == k && b < |ups|
    requires forall q :: 0 <= q < |ups| ==> MergeHeight(x, ups[b].index) <= MergeHeight(x, ups[q].index)
    ensures MergeHeight(x, ups[b].index) <= h
    ensures Repaired(x, Proof(base, x, h), ups[b]) == Proof(to, x, h)
  {
    hide Shr, Proof, ProofRoot, Sub, MergeHeight;
    var y := ups[b].index;
    MergeHeightIff(x, y, h);
    if y != x {
      MergeEntry(x, y, to, h, ups[b].proof);
      var mh := MergeHeight(x, y);
      MergeHeightIff(x, y, mh);
      ProofSuffix(to, x, y, h, mh);
      assert ups[b].proof[mh..h] == ups[b].proof[..h][mh..];
      var p := Proof(to, x, h);
      forall g | 0 <= g < mh - 1
        ensures Proof(base, x, h)[g] == p[g]
      {
        EntryKept(x, mh, ups, base, to, h, k, g);
      }
      assert p == p[..mh - 1] + [p[mh - 1]] + p[mh..];
    }
  }

  /** With no changed path in the column, the proof is already right. */
  lemma {:induction false} RepairedNone(x: nat, base: seq<Hash>, to: seq<Hash>, h: nat, k: nat)
    requires Repairs([], base, to, h, k) && Shr(x, h) == k
    ensures Proof(base, x, h) == Proof(to, x, h)
  {
    forall g | 0 <= g < h
      ensures Proof(base, x, h)[g] == Proof(to, x, h)[g]
    {
      EntryKept(x, h + 1, [], base, to, h, k, g);
    }
  }

  lemma {:induction false} MovedSplit(ps: seq<Path>, s: nat, to: seq<Hash>, h: nat, k: nat)
    requires s <= |ps| && k < Shr(|to|, h)
    requires forall q :: 0 <= q < |ps| ==> Shr(ps[q].index, h) == k && h <= |ps[q].proof|
    ensures Moved(ps, to, h, k)[..s] == Moved(ps[..s], to, h, k) && Moved(ps, to, h, k)[s..] == Moved(ps[s..], to, h, k)
  {}
}
