/** Elements and their accumulator leaves, shared by pointer between a block's updates and the
    accumulator that rewrites their proofs. */
module Elements {
  import opened Types

  class StateElement {
    var leafIndex: nat
    var merkleProof: seq<Hash>

    constructor (leafIndex: nat, merkleProof: seq<Hash>)
      ensures this.leafIndex == leafIndex && this.merkleProof == merkleProof
    {
      this.leafIndex, this.merkleProof := leafIndex, merkleProof;
    }
  }

  /** A leaf points to the element state that its owner reads the proof from. */
  datatype ElementLeaf = ElementLeaf(se: StateElement, element: Element, spent: bool) {
    function Hash(): Types.Hash
      reads se
    {
      LeafHash(element, se.leafIndex, spent)
    }
  }

  ghost function States(leaves: seq<ElementLeaf>): set<StateElement> {
    set l | l in leaves :: l.se
  }

  /** No two leaves share their element state. */
  ghost predicate Distinct(leaves: seq<ElementLeaf>) {
    forall i, j :: 0 <= i < j < |leaves| ==> leaves[i].se != leaves[j].se
  }

  ghost predicate Holding(leaves: seq<ElementLeaf>, proofs: seq<seq<Types.Hash>>)
    reads States(leaves)
  {
    |proofs| == |leaves| && forall j :: 0 <= j < |leaves| ==> leaves[j].se.merkleProof == proofs[j]
  }

  ghost function ProofsOf(leaves: seq<ElementLeaf>): (proofs: seq<seq<Types.Hash>>)
    reads States(leaves)
    ensures Holding(leaves, proofs)
  {
    seq(|leaves|, j requires 0 <= j < |leaves| reads States(leaves) => leaves[j].se.merkleProof)
  }

  /** What a leaf holds, as a value. */
  datatype Path = Path(index: nat, leaf: Types.Hash, proof: seq<Types.Hash>)

  /** The leaves hold exactly these positions, leaf hashes and proofs. */
  ghost predicate Views(leaves: seq<ElementLeaf>, ps: seq<Path>)
    reads States(leaves)
  {
    |ps| == |leaves| && forall q :: 0 <= q < |leaves| ==>
      ps[q] == Path(leaves[q].se.leafIndex, leaves[q].Hash(), leaves[q].se.merkleProof)
  }

  ghost function PathsOf(leaves: seq<ElementLeaf>): (ps: seq<Path>)
    reads States(leaves)
    ensures Views(leaves, ps)
  {
    seq(|leaves|, q requires 0 <= q < |leaves| reads States(leaves) =>
      Path(leaves[q].se.leafIndex, leaves[q].Hash(), leaves[q].se.merkleProof))
  }

  lemma {:induction false} DistinctSplit(leaves: seq<ElementLeaf>, s: nat)
    requires s <= |leaves| && Distinct(leaves)
    ensures Distinct(leaves[..s]) && Distinct(leaves[s..]) && States(leaves[..s]) !! States(leaves[s..])
    ensures States(leaves) == States(leaves[..s]) + States(leaves[s..])
  {
    assert leaves == leaves[..s] + leaves[s..];
    forall x, y | x in leaves[..s] && y in leaves[s..]
      ensures x.se != y.se
    {
      var i :| 0 <= i < s && leaves[..s][i] == x;
      var j :| 0 <= j < |leaves| - s && leaves[s..][j] == y;
      assert leaves[i] == x && leaves[s + j] == y;
    }
  }

  lemma {:induction false} ViewsSplit(leaves: seq<ElementLeaf>, ps: seq<Path>, s: nat)
    requires s <= |leaves| == |ps|
    ensures Views(leaves, ps) <==> Views(leaves[..s], ps[..s]) && Views(leaves[s..], ps[s..])
  {
    if Views(leaves[..s], ps[..s]) && Views(leaves[s..], ps[s..]) {
      forall q | 0 <= q < |leaves|
        ensures ps[q] == Path(leaves[q].se.leafIndex, leaves[q].Hash(), leaves[q].se.merkleProof)
      {
        if q < s {
          assert leaves[..s][q] == leaves[q] && ps[..s][q] == ps[q];
        } else {
          assert leaves[s..][q - s] == leaves[q] && ps[s..][q - s] == ps[q];
        }
      }
    }
  }
}
