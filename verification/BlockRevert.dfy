/** RevertBlock as it runs, and the way of an element's proof along a chain of valid blocks. */
module BlockRevert {
  import opened Types
  import opened Bits
  import opened Forest
  import opened Elements
  import opened Accumulator
  import opened Ledger
  import opened Refinement
  import opened BlockApply
  import H = Difficulty
  import S = Safety

  // ---- Diffs as they were before the block ----

  function Reverted(sces: seq<Diff>): seq<Diff> {
    seq(|sces|, j requires 0 <= j < |sces| => sces[j].(spent := false))
  }

  lemma {:induction false} AssignedReverted(sces: seq<Diff>)
    ensures Assigned(Reverted(sces)) == Reverted(Assigned(sces))
  {
    if sces != [] {
      var front := sces[..|sces| - 1];
      AssignedReverted(front);
      assert Reverted(sces)[..|sces| - 1] == Reverted(front);
    }
  }

  /** The unspent leaf of an assigned diff is in the list. */
  ghost predicate WasThere(ls: seq<Hash>, d: Diff) {
    d.element.leafIndex != UNASSIGNED ==>
      d.element.leafIndex < |ls| && ls[d.element.leafIndex] == Leaf(d.(spent := false), d.element.leafIndex)
  }

  lemma {:induction false} PatchedReverted(ls: seq<Hash>, sces: seq<Diff>)
    requires forall j :: 0 <= j < |sces| ==> WasThere(ls, sces[j])
    ensures Patched(ls, Reverted(sces)) == ls
  {
    if sces != [] {
      var front := sces[..|sces| - 1];
      PatchedReverted(ls, front);
      assert Reverted(sces)[..|sces| - 1] == Reverted(front);
      assert WasThere(ls, sces[|sces| - 1]);
    }
  }

  /** The diffs of a block, taken as unspent, are the leaves that it found. */
  lemma {:induction false} DiffsRevert(ms: Mid)
    requires MidInv(ms)
    ensures Separate(ms.base.leaves, Assigned(Reverted(ms.sces)))
    ensures Patched(ms.base.leaves, Reverted(ms.sces)) == ms.base.leaves
  {
    DiffsSeparate(ms);
    AssignedReverted(ms.sces);
    forall j | 0 <= j < |ms.sces|
      ensures WasThere(ms.base.leaves, ms.sces[j])
    {
      assert DiffOk(ms, j);
    }
    PatchedReverted(ms.base.leaves, ms.sces);
  }

  /** Every place where the block has changed the list is that of a diff. */
  lemma {:induction false} ChangesCovered(ls: seq<Hash>, sces: seq<Diff>, full: seq<Hash>, leaves: seq<ElementLeaf>,
                                          y: nat)
    requires |ls| < MAX_LEAVES && Separate(ls, Assigned(sces)) && MirrorsAll(leaves, Assigned(Reverted(sces)))
    requires y < |ls| <= |full| && full[y] == Patched(ls, sces)[y] && full[y] != ls[y]
    ensures exists l :: l in leaves && l.se.leafIndex == y
  {
    PatchedIs(ls, sces);
    AssignedReverted(sces);
    var q :| 0 <= q < |Assigned(sces)| && Assigned(sces)[q].element.leafIndex == y;
    assert Mirrors(leaves[q], Reverted(Assigned(sces))[q]) && leaves[q] in leaves;
  }

  // ---- Reverting ----

  method RevertDiffs(ms: Mid, acc: ElementAccumulator, ghost full: seq<Hash>)
    returns (eru: RevertUpdate, ghost updated: seq<ElementLeaf>)
    requires MidInv(ms) && acc.Holds(ms.base.leaves)
    requires |ms.base.leaves| <= |full| && full[..|ms.base.leaves|] == Patched(ms.base.leaves, ms.sces)
    ensures eru.numLeaves == |ms.base.leaves| && Moves(eru.updated, updated, |ms.base.leaves|, full, ms.base.leaves)
    ensures fresh(States(updated))
  {
    ghost var ls := ms.base.leaves;
    DiffsSeparate(ms);
    DiffsRevert(ms);
    var ups, added := DiffLeaves(ms.base.leaves, Reverted(ms.sces));
    updated := ups;
    forall y | 0 <= y < |ls| && full[y] != ls[y]
      ensures exists l :: l in ups && l.se.leafIndex == y
    {
      assert full[y] == full[..|ls|][y];
      ChangesCovered(ls, ms.sces, full, ups, y);
    }
    eru := acc.RevertBlock(ups, added, ls, full);
  }

  lemma {:induction false} AppliedPrefix(net: Network, s: State, b: Block)
    ensures var full := Ledger.ApplyBlock(net, s, b).leaves;
            |s.leaves| <= |full| && full[..|s.leaves|] == Patched(s.leaves, FinalMid(net, s, b).sces)
  {
    hide FinalMid, Patched, Appended;
  }

  /** RevertBlock: the block is run again on the state before it, whose accumulator is acc, and gives the way
      back for every proof. */
  method RevertElements(net: Network, s: State, b: Block, acc: ElementAccumulator, ghost ids: seq<OutputID>)
    returns (eru: RevertUpdate, ghost updated: seq<ElementLeaf>)
    requires S.ChainGood(net, s, ids) && BlockVerdict(net, s, b) == Accepted && acc.Holds(s.leaves)
    ensures var full := Ledger.ApplyBlock(net, s, b).leaves;
            eru.numLeaves == |s.leaves| <= |full| && Moves(eru.updated, updated, |s.leaves|, full, s.leaves)
    ensures fresh(States(updated))
  {
    hide Ledger.ApplyBlock, BlockVerdict, FinalMid, MidInv, S.ChainGood;
    AcceptedMid(net, s, b, ids);
    AppliedPrefix(net, s, b);
    var ms := RunBlock(net, s, b);
    ghost var full := Ledger.ApplyBlock(net, s, b).leaves;
    eru, updated := RevertDiffs(ms.Value(), acc, full);
  }

  /** Both updates of an accepted block, for the holders of proofs. */
  method BlockUpdates(net: Network, s: State, b: Block, acc: ElementAccumulator, ghost ids: seq<OutputID>)
    returns (eau: ApplyUpdate, eru: RevertUpdate, ghost al: seq<ElementLeaf>, ghost rl: seq<ElementLeaf>)
    requires S.ChainGood(net, s, ids) && BlockVerdict(net, s, b) == Accepted && acc.Holds(s.leaves)
    requires |Ledger.ApplyBlock(net, s, b).leaves| < MAX_LEAVES
    modifies acc`numLeaves, acc.trees
    ensures acc.Holds(Ledger.ApplyBlock(net, s, b).leaves)
    ensures Steps(eau, eru, al, rl, s.leaves, Ledger.ApplyBlock(net, s, b).leaves)
    ensures fresh(States(al)) && fresh(States(rl))
  {
    hide Ledger.ApplyBlock, BlockVerdict, S.ChainGood;
    eru, rl := RevertElements(net, s, b, acc, ids);
    var added;
    eau, added, al := ApplyElements(net, s, b, acc, ids);
  }

  // ---- Along a chain ----

  /** The leaves after the first i blocks of a chain from genesis. */
  ghost function LeavesAt(net: Network, g: State, blocks: seq<Block>, i: nat): seq<Hash>
    requires i <= |blocks|
  {
    S.StateAt(net, g, blocks, i).leaves
  }

  lemma {:induction false} NextOnChain(net: Network, owner: Address, id: BlockID, head: H.Head, blocks: seq<Block>,
                                       i: nat, s: State)
    requires head.height == 0 && S.ValidChain(net, S.Genesis(net, owner, id, head), blocks) && i < |blocks|
    requires S.StateAt(net, S.Genesis(net, owner, id, head), blocks, i) == s
    ensures S.ChainGood(net, s, S.ChainSpends(blocks[..i])) && BlockVerdict(net, s, blocks[i]) == Accepted
    ensures S.StateAt(net, S.Genesis(net, owner, id, head), blocks, i + 1) == Ledger.ApplyBlock(net, s, blocks[i])
    ensures |Ledger.ApplyBlock(net, s, blocks[i]).leaves| < MAX_LEAVES
  {
    hide Ledger.ApplyBlock, BlockVerdict, S.ChainGood, S.Genesis;
    var g := S.Genesis(net, owner, id, head);
    S.GenesisGood(net, owner, id, head);
    S.ChainKeeps(net, g, blocks, i);
    S.ChainPrefix(net, g, blocks, i + 1);
    assert S.ValidNext(net, g, blocks, i);
  }

  /** The updates of every block of a valid chain. */
  method ChainUpdates(net: Network, owner: Address, id: BlockID, head: H.Head, blocks: seq<Block>)
    returns (aus: seq<ApplyUpdate>, rus: seq<RevertUpdate>,
             ghost al: seq<seq<ElementLeaf>>, ghost rl: seq<seq<ElementLeaf>>)
    requires head.height == 0 && S.ValidChain(net, S.Genesis(net, owner, id, head), blocks)
    ensures |aus| == |rus| == |al| == |rl| == |blocks|
    ensures var g := S.Genesis(net, owner, id, head);
            forall i :: 0 <= i < |blocks| ==>
              Steps(aus[i], rus[i], al[i], rl[i], LeavesAt(net, g, blocks, i), LeavesAt(net, g, blocks, i + 1))
    ensures forall i :: 0 <= i < |blocks| ==> fresh(States(al[i])) && fresh(States(rl[i]))
  {
    hide Ledger.ApplyBlock, BlockVerdict, S.ChainGood, S.ValidChain, S.Genesis, Steps;
    var acc := GenesisElements(net, owner, id, head);
    var s := S.Genesis(net, owner, id, head);
    ghost var g := s;
    aus, rus, al, rl := [], [], [], [];
    for i := 0 to |blocks|
      invariant |aus| == |rus| == |al| == |rl| == i && fresh(acc) && fresh(acc.trees)
      invariant s == S.StateAt(net, g, blocks, i) && acc.Holds(s.leaves)
      invariant forall j :: 0 <= j < i ==>
                  Steps(aus[j], rus[j], al[j], rl[j], LeavesAt(net, g, blocks, j), LeavesAt(net, g, blocks, j + 1))
      invariant forall j :: 0 <= j < i ==> fresh(States(al[j])) && fresh(States(rl[j]))
    {
      NextOnChain(net, owner, id, head, blocks, i, s);
      ghost var a, r;
      var eau, eru;
      eau, eru, a, r := BlockUpdates(net, s, blocks[i], acc, S.ChainSpends(blocks[..i]));
      aus, rus, al, rl := aus + [eau], rus + [eru], al + [a], rl + [r];
      s := Ledger.ApplyBlock(net, s, blocks[i]);
    }
  }

  /** Along every chain of valid blocks, a proof that is valid at one height is, after any walk up and down over
      heights at which its leaf exists, the proof at the height reached; back at the start it is the same. */
  method FollowBlocks(net: Network, owner: Address, id: BlockID, head: H.Head, blocks: seq<Block>, walk: seq<nat>,
                      e: StateElement)
    requires head.height == 0 && S.ValidChain(net, S.Genesis(net, owner, id, head), blocks)
    requires walk != [] && forall i :: 0 <= i < |walk| ==>
               walk[i] <= |blocks| && e.leafIndex < |LeavesAt(net, S.Genesis(net, owner, id, head), blocks, walk[i])|
    requires forall i :: 0 <= i < |walk| - 1 ==> walk[i + 1] == walk[i] + 1 || walk[i] == walk[i + 1] + 1
    requires e.leafIndex != UNASSIGNED
    requires e.merkleProof == FullProof(LeavesAt(net, S.Genesis(net, owner, id, head), blocks, walk[0]), e.leafIndex)
    modifies e`merkleProof
    ensures e.merkleProof
         == FullProof(LeavesAt(net, S.Genesis(net, owner, id, head), blocks, walk[|walk| - 1]), e.leafIndex)
    ensures walk[|walk| - 1] == walk[0] ==> e.merkleProof == old(e.merkleProof)
  {
    hide S.StateAt, S.ValidChain, S.Genesis, Steps;
    ghost var g := S.Genesis(net, owner, id, head);
    ghost var lists := seq(|blocks| + 1, i requires 0 <= i <= |blocks| => LeavesAt(net, g, blocks, i));
    ghost var al, rl;
    var aus, rus;
    aus, rus, al, rl := ChainUpdates(net, owner, id, head, blocks);
    FollowChain(aus, rus, walk, e, al, rl, lists);
  }
}
