/** ApplyBlock as it runs: the block's diffs become the updated and added leaves of the accumulator. */
module BlockApply {
  import opened Types
  import opened Bits
  import opened Forest
  import opened Elements
  import opened Update
  import opened Accumulator
  import opened Ledger
  import opened Refinement
  import opened Utxo
  import H = Difficulty
  import R = Runs
  import S = Safety
  import M = MidState

  // ---- Diffs as leaves ----

  function Assigned(sces: seq<Diff>): seq<Diff> {
    if sces == [] then []
    else
      var d := sces[|sces| - 1];
      if d.element.leafIndex == UNASSIGNED then Assigned(sces[..|sces| - 1]) else Assigned(sces[..|sces| - 1]) + [d]
  }

  function Unassigned(sces: seq<Diff>): seq<Diff> {
    if sces == [] then []
    else
      var d := sces[|sces| - 1];
      if d.element.leafIndex == UNASSIGNED then Unassigned(sces[..|sces| - 1]) + [d] else Unassigned(sces[..|sces| - 1])
  }

  lemma {:induction false} AppendedIs(n: nat, sces: seq<Diff>)
    ensures |Appended(n, sces)| == |Unassigned(sces)|
    ensures forall j :: 0 <= j < |Unassigned(sces)| ==> Appended(n, sces)[j] == Leaf(Unassigned(sces)[j], n + j)
  {
    if sces != [] { AppendedIs(n, sces[..|sces| - 1]); }
  }

  /** The diffs of leaves that exist have their proofs, and are at different positions. */
  ghost predicate Separate(ls: seq<Hash>, ds: seq<Diff>) {
    && (forall q :: 0 <= q < |ds| ==>
          ds[q].element.leafIndex < |ls| && ds[q].element.proof == FullProof(ls, ds[q].element.leafIndex))
    && (forall p, q :: 0 <= p < q < |ds| ==> ds[p].element.leafIndex != ds[q].element.leafIndex)
  }

  /** The patched list holds every diff's leaf, and is otherwise the old one. */
  lemma {:induction false} PatchedIs(ls: seq<Hash>, sces: seq<Diff>)
    requires |ls| < MAX_LEAVES && Separate(ls, Assigned(sces))
    ensures forall q :: 0 <= q < |Assigned(sces)| ==>
              var d := Assigned(sces)[q];
              Patched(ls, sces)[d.element.leafIndex] == Leaf(d, d.element.leafIndex)
    ensures forall y :: 0 <= y < |ls| && Patched(ls, sces)[y] != ls[y] ==>
              exists q :: 0 <= q < |Assigned(sces)| && Assigned(sces)[q].element.leafIndex == y
  {
    hide Leaf;
    if sces != [] {
      var front, d, ds := sces[..|sces| - 1], sces[|sces| - 1], Assigned(sces);
      if d.element.leafIndex == UNASSIGNED {
        PatchedIs(ls, front);
      } else {
        assert ds == Assigned(front) + [d];
        assert forall q :: 0 <= q < |Assigned(front)| ==> Assigned(front)[q] == ds[q];
        PatchedIs(ls, front);
        assert ds[|ds| - 1] == d;
        forall y | 0 <= y < |ls| && Patched(ls, sces)[y] != ls[y]
          ensures exists q :: 0 <= q < |ds| && ds[q].element.leafIndex == y
        {
          if y != d.element.leafIndex {
            var q :| 0 <= q < |Assigned(front)| && Assigned(front)[q].element.leafIndex == y;
            assert ds[q].element.leafIndex == y;
          }
        }
      }
    }
  }

  /** l is the accumulator leaf of d. */
  ghost predicate Mirrors(l: ElementLeaf, d: Diff)
    reads l.se
  {
    && l.element == Siacoin(d.element.id, d.element.output, d.element.maturity) && l.spent == d.spent
    && l.se.leafIndex == d.element.leafIndex && l.se.merkleProof == d.element.proof
  }

  ghost predicate MirrorsAll(leaves: seq<ElementLeaf>, ds: seq<Diff>)
    reads States(leaves)
  {
    |leaves| == |ds| && forall q :: 0 <= q < |ds| ==> Mirrors(leaves[q], ds[q])
  }

  /** The updated leaves are what the accumulator asks for. */
  lemma {:induction false} MirrorsReplace(leaves: seq<ElementLeaf>, ls: seq<Hash>, sces: seq<Diff>)
    requires |ls| < MAX_LEAVES && Separate(ls, Assigned(sces)) && MirrorsAll(leaves, Assigned(sces))
    ensures ProvenIn(leaves, ls) && Replaces(leaves, ls, Patched(ls, sces))
  {
    PatchedIs(ls, sces);
    var ds := Assigned(sces);
    forall l | l in leaves
      ensures l.se.leafIndex < |ls| && l.se.merkleProof == FullProof(ls, l.se.leafIndex)
      ensures Patched(ls, sces)[l.se.leafIndex] == l.Hash()
    {
      var q :| 0 <= q < |leaves| && leaves[q] == l;
      assert Mirrors(leaves[q], ds[q]);
    }
    forall y | 0 <= y < |ls| && ls[y] != Patched(ls, sces)[y]
      ensures exists l :: l in leaves && l.se.leafIndex == y
    {
      var q :| 0 <= q < |ds| && ds[q].element.leafIndex == y;
      assert Mirrors(leaves[q], ds[q]) && leaves[q] in leaves;
    }
  }

  lemma {:induction false} MirrorsApart(leaves: seq<ElementLeaf>, ls: seq<Hash>, ds: seq<Diff>)
    requires Separate(ls, ds) && MirrorsAll(leaves, ds)
    ensures DistinctIndices(leaves)
  {
    forall a, b | a in leaves && b in leaves && a.se != b.se
      ensures a.se.leafIndex != b.se.leafIndex
    {
      var p :| 0 <= p < |leaves| && leaves[p] == a;
      var q :| 0 <= q < |leaves| && leaves[q] == b;
      assert Mirrors(leaves[p], ds[p]) && Mirrors(leaves[q], ds[q]);
      assert p != q;
      if p < q { assert ds[p].element.leafIndex != ds[q].element.leafIndex; }
      else { assert ds[q].element.leafIndex != ds[p].element.leafIndex; }
    }
  }

  lemma {:induction false} MirrorsNew(leaves: seq<ElementLeaf>, n: nat, sces: seq<Diff>)
    requires MirrorsAll(leaves, Unassigned(sces))
    ensures NewHashes(leaves, n) == Appended(n, sces)
  {
    AppendedIs(n, sces);
    forall j | 0 <= j < |leaves|
      ensures NewHashes(leaves, n)[j] == Appended(n, sces)[j]
    {
      assert Mirrors(leaves[j], Unassigned(sces)[j]);
    }
  }

  // ---- The diffs of an accepted block ----

  lemma {:induction false} AssignedFrom(sces: seq<Diff>, q: nat) returns (j: nat)
    requires q < |Assigned(sces)|
    ensures j < |sces| && sces[j] == Assigned(sces)[q] && sces[j].element.leafIndex != UNASSIGNED
  {
    var front, d := sces[..|sces| - 1], sces[|sces| - 1];
    if d.element.leafIndex != UNASSIGNED && q == |Assigned(front)| {
      j := |front|;
    } else {
      j := AssignedFrom(front, q);
    }
  }

  lemma {:induction false} AssignedOrder(sces: seq<Diff>, p: nat, q: nat) returns (i: nat, j: nat)
    requires p < q < |Assigned(sces)|
    ensures i < j < |sces| && sces[i] == Assigned(sces)[p] && sces[j] == Assigned(sces)[q]
    ensures sces[i].element.leafIndex != UNASSIGNED && sces[j].element.leafIndex != UNASSIGNED
  {
    var front, d := sces[..|sces| - 1], sces[|sces| - 1];
    if d.element.leafIndex != UNASSIGNED && q == |Assigned(front)| {
      i := AssignedFrom(front, p);
      j := |front|;
    } else {
      i, j := AssignedOrder(front, p, q);
    }
  }

  lemma {:induction false} DiffsSeparate(ms: Mid)
    requires MidInv(ms)
    ensures Separate(ms.base.leaves, Assigned(ms.sces))
  {
    var ds, ls := Assigned(ms.sces), ms.base.leaves;
    forall q | 0 <= q < |ds|
      ensures ds[q].element.leafIndex < |ls| && ds[q].element.proof == FullProof(ls, ds[q].element.leafIndex)
    {
      var j := AssignedFrom(ms.sces, q);
      assert DiffOk(ms, j);
    }
    forall p, q | 0 <= p < q < |ds|
      ensures ds[p].element.leafIndex != ds[q].element.leafIndex
    {
      var i, j := AssignedOrder(ms.sces, p, q);
      assert DiffOk(ms, i) && DiffOk(ms, j);
    }
  }

  lemma {:induction false} FinalInv(net: Network, s: State, b: Block, fees: nat, gone: seq<OutputID>)
    requires UniqueIds(Entries(s.leaves)) && S.MidGood(s, S.MidAt(s, b.txs, |b.txs|), fees, gone)
    requires S.MinersPast(s) && b.parent == s.id && |b.payouts| == 1
    ensures MidInv(FinalMid(net, s, b)) && FinalMid(net, s, b).base == s
  {
    var ms := S.MidAt(s, b.txs, |b.txs|);
    S.PayoutFresh(s, ms, fees, gone, b);
    CreateStep(ms, MinerOutput(BlockIdOf(b), 0), b.payouts[0], Child(s) + net.maturityDelay);
    S.FinalIsCreate(net, s, b);
  }

  lemma {:induction false} AcceptedMid(net: Network, s: State, b: Block, ids: seq<OutputID>)
    requires S.ChainGood(net, s, ids) && BlockVerdict(net, s, b) == Accepted
    ensures MidInv(FinalMid(net, s, b)) && FinalMid(net, s, b).base == s
  {
    S.AcceptedFacts(net, s, b);
    S.AcceptedTxs(net, s, b, ids);
    FinalInv(net, s, b, SumFees(b.txs), S.SpentIds(ids, b.txs));
  }

  // ---- Application ----

  method RunTransactions(ms: M.MidState, txs: seq<Tx>)
    requires ms.Value() == NewMid(ms.base)
    modifies ms`elements, ms`sces, ms`spends, ms`proved
    ensures ms.Value() == ApplyTxs(NewMid(ms.base), txs)
  {
    for i := 0 to |txs|
      invariant ms.Value() == ApplyTxs(NewMid(ms.base), txs[..i])
    {
      ms.ApplyTransaction(txs[i]);
      assert txs[..i + 1][..i] == txs[..i];
    }
    assert txs[..|txs|] == txs;
  }

  method RunPayouts(net: Network, ms: M.MidState, b: Block)
    requires Linked(ms.Value())
    modifies ms`elements, ms`sces
    ensures ms.Value() == CreatePayouts(net, old(ms.Value()), b, |b.payouts|)
  {
    for i := 0 to |b.payouts|
      invariant ms.Value() == CreatePayouts(net, old(ms.Value()), b, i)
    {
      ms.CreateElement(MinerOutput(BlockIdOf(b), i), b.payouts[i], Child(ms.base) + net.maturityDelay);
    }
  }

  /** MidState.ApplyBlock: the transactions, and then the payouts. */
  method RunBlock(net: Network, s: State, b: Block) returns (ms: M.MidState)
    ensures fresh(ms) && ms.base == s && ms.Value() == FinalMid(net, s, b)
  {
    ms := new M.MidState(s);
    RunTransactions(ms, b.txs);
    RunPayouts(net, ms, b);
  }

  ghost predicate Apart(updated: seq<ElementLeaf>, added: seq<ElementLeaf>) {
    Distinct(updated) && Distinct(added) && forall a, b :: a in updated && b in added ==> a.se != b.se
  }

  /** The updated and added leaves of ApplyBlock. */
  method SplitElements(sces: seq<Diff>) returns (updated: seq<ElementLeaf>, added: seq<ElementLeaf>)
    ensures MirrorsAll(updated, Assigned(sces)) && MirrorsAll(added, Unassigned(sces)) && Apart(updated, added)
    ensures forall l :: l in updated || l in added ==> fresh(l.se)
  {
    updated, added := [], [];
    for i := 0 to |sces|
      invariant MirrorsAll(updated, Assigned(sces[..i])) && MirrorsAll(added, Unassigned(sces[..i]))
      invariant Apart(updated, added)
      invariant forall l :: l in updated || l in added ==> fresh(l.se)
    {
      var d := sces[i];
      var se := new StateElement(d.element.leafIndex, d.element.proof);
      var l := ElementLeaf(se, Siacoin(d.element.id, d.element.output, d.element.maturity), d.spent);
      assert sces[..i + 1][..i] == sces[..i];
      if d.element.leafIndex == UNASSIGNED {
        added := added + [l];
      } else {
        updated := updated + [l];
      }
    }
    assert sces[..|sces|] == sces;
  }

  /** The proofs that the added leaves arrive with: those of the inputs that spent them within the block, and
      none otherwise. */
  function Arrived(sces: seq<Diff>): seq<seq<Hash>> {
    var ds := Unassigned(sces);
    seq(|ds|, j requires 0 <= j < |ds| => ds[j].element.proof) + [[]]
  }

  lemma {:induction false} MirrorsHold(leaves: seq<ElementLeaf>, sces: seq<Diff>)
    requires MirrorsAll(leaves, Unassigned(sces))
    ensures Holding(leaves, Arrived(sces)[..|leaves|]) && |Arrived(sces)| == |leaves| + 1
  {
    forall j | 0 <= j < |leaves|
      ensures leaves[j].se.merkleProof == Arrived(sces)[..|leaves|][j]
    {
      assert Mirrors(leaves[j], Unassigned(sces)[j]);
    }
  }

  /** The leaves of the diffs, as the accumulator asks for them. */
  method DiffLeaves(ls: seq<Hash>, sces: seq<Diff>) returns (updated: seq<ElementLeaf>, added: seq<ElementLeaf>)
    requires |ls| < MAX_LEAVES && Separate(ls, Assigned(sces))
    ensures Apart(updated, added) && forall l :: l in updated || l in added ==> fresh(l.se)
    ensures ProvenIn(updated, ls) && DistinctIndices(updated) && Replaces(updated, ls, Patched(ls, sces))
    ensures MirrorsAll(updated, Assigned(sces)) && MirrorsAll(added, Unassigned(sces))
  {
    updated, added := SplitElements(sces);
    MirrorsReplace(updated, ls, sces);
    MirrorsApart(updated, ls, Assigned(sces));
  }

  /** The chain index element, behind the leaves of the diffs. */
  method AddIndex(leaves: seq<ElementLeaf>, ms: Mid, height: nat, id: BlockID, ghost others: seq<ElementLeaf>)
    returns (added: seq<ElementLeaf>)
    requires MirrorsAll(leaves, Unassigned(ms.sces)) && Apart(others, leaves)
    ensures Apart(others, added) && forall l :: l in added ==> l in leaves || fresh(l.se)
    ensures NewHashes(added, |ms.base.leaves|) == FullAppended(ms, height, id) && Holding(added, Arrived(ms.sces))
  {
    MirrorsNew(leaves, |ms.base.leaves|, ms.sces);
    MirrorsHold(leaves, ms.sces);
    var se := new StateElement(UNASSIGNED, []);
    added := leaves + [ElementLeaf(se, ChainIndex(height, id), false)];
  }

  /** The leaves of a block, with its chain index element last. */
  method BlockLeaves(ms: Mid, height: nat, id: BlockID) returns (updated: seq<ElementLeaf>, added: seq<ElementLeaf>)
    requires MidInv(ms)
    ensures Apart(updated, added) && forall l :: l in updated || l in added ==> fresh(l.se)
    ensures ProvenIn(updated, ms.base.leaves) && DistinctIndices(updated)
    ensures Replaces(updated, ms.base.leaves, Patched(ms.base.leaves, ms.sces))
    ensures NewHashes(added, |ms.base.leaves|) == FullAppended(ms, height, id) && Holding(added, Arrived(ms.sces))
  {
    DiffsSeparate(ms);
    updated, added := DiffLeaves(ms.base.leaves, ms.sces);
    added := AddIndex(added, ms, height, id, updated);
  }

  ghost function FullAppended(ms: Mid, height: nat, id: BlockID): seq<Hash> {
    var ls := ms.base.leaves;
    Appended(|ls|, ms.sces) + [LeafHash(ChainIndex(height, id), |NewLeaves(ls, ms.sces)|, false)]
  }

  /** The leaves that a block has added are those of its diffs and its index, and each is accepted exactly if it
      arrived without a proof. */
  ghost predicate AddedRight(acc: ElementAccumulator, added: seq<ElementLeaf>, sces: seq<Diff>)
    reads acc, acc.trees, States(added)
  {
    |added| == |Arrived(sces)| && forall j :: 0 <= j < |added| ==> (acc.Accepts(added[j]) <==> Arrived(sces)[j] == [])
  }

  lemma {:induction false} AddedAreRight(acc: ElementAccumulator, added: seq<ElementLeaf>, sces: seq<Diff>, n: nat,
                                         full: seq<Hash>)
    requires acc.Holds(full) && |full| == n + |added| && full[n..] == NewHashes(added, n) && |Arrived(sces)| == |added|
    requires Holding(added, AddedProofs(Arrived(sces), full, n, |added|))
    requires forall j :: 0 <= j < |added| ==> added[j].se.leafIndex == n + j
    ensures AddedRight(acc, added, sces)
  {
    forall j | 0 <= j < |added|
      ensures acc.Accepts(added[j]) <==> Arrived(sces)[j] == []
    {
      AddedAccepted(acc.trees[..], added, Arrived(sces), n, full, j);
    }
  }

  /** ApplyBlock's accumulator: from the roots of the old state's leaves to the roots of the new state's,
      with what the holders of proofs need to follow, and the proofs of the added leaves. */
  method ApplyElements(net: Network, s: State, b: Block, acc: ElementAccumulator, ghost ids: seq<OutputID>)
    returns (eau: ApplyUpdate, added: seq<ElementLeaf>, ghost updated: seq<ElementLeaf>)
    requires S.ChainGood(net, s, ids) && BlockVerdict(net, s, b) == Accepted && acc.Holds(s.leaves)
    requires |Ledger.ApplyBlock(net, s, b).leaves| < MAX_LEAVES
    modifies acc`numLeaves, acc.trees
    ensures acc.Holds(Ledger.ApplyBlock(net, s, b).leaves)
    ensures Carries(eau, updated, s.leaves, Ledger.ApplyBlock(net, s, b).leaves)
    ensures AddedRight(acc, added, FinalMid(net, s, b).sces)
    ensures fresh(States(updated)) && fresh(States(added))
  {
    AcceptedMid(net, s, b, ids);
    var ms := RunBlock(net, s, b);
    eau, added, updated := ApplyDiffs(s.leaves, ms.Value(), Child(s), BlockIdOf(b), acc);
  }

  /** What the update of a block offers to the holders of older proofs. */
  ghost predicate Carries(eau: ApplyUpdate, updated: seq<ElementLeaf>, ls: seq<Hash>, full: seq<Hash>)
    reads States(updated)
  {
    && eau.oldNumLeaves == |ls| && eau.numLeaves == |full|
    && Moves(eau.updated, updated, |ls|, ls, full) && eau.treeGrowth == GrowthSeq(full, |ls|, |full|)
  }

  ghost function FullLeaves(ms: Mid, height: nat, id: BlockID): seq<Hash> {
    var leaves := NewLeaves(ms.base.leaves, ms.sces);
    leaves + [LeafHash(ChainIndex(height, id), |leaves|, false)]
  }

  method ApplyDiffs(ghost ls: seq<Hash>, ms: Mid, height: nat, id: BlockID, acc: ElementAccumulator)
    returns (eau: ApplyUpdate, added: seq<ElementLeaf>, ghost updated: seq<ElementLeaf>)
    requires MidInv(ms) && ms.base.leaves == ls && acc.Holds(ls)
    requires |NewLeaves(ls, ms.sces)| + 1 < MAX_LEAVES
    modifies acc`numLeaves, acc.trees
    ensures acc.Holds(FullLeaves(ms, height, id)) && Carries(eau, updated, ls, FullLeaves(ms, height, id))
    ensures AddedRight(acc, added, ms.sces) && fresh(States(updated)) && fresh(States(added))
  {
    var ups;
    ups, added := BlockLeaves(ms, height, id);
    updated := ups;
    ghost var full := FullLeaves(ms, height, id);
    assert |NewHashes(added, |ls|)| == |added|;
    assert full == Patched(ls, ms.sces) + FullAppended(ms, height, id);
    assert ProofsOf(added) == Arrived(ms.sces);
    eau := acc.ApplyBlock(ups, added, ls, Patched(ls, ms.sces));
    AddedAreRight(acc, added, ms.sces, |ls|, full);
  }

  // ---- A whole run ----

  /** The accumulator after genesis. */
  method GenesisElements(net: Network, owner: Address, id: BlockID, head: H.Head) returns (acc: ElementAccumulator)
    ensures fresh(acc) && fresh(acc.trees) && acc.Holds(S.Genesis(net, owner, id, head).leaves)
  {
    acc := new ElementAccumulator();
    var premine := new StateElement(UNASSIGNED, []);
    var index := new StateElement(UNASSIGNED, []);
    var leaves := [ElementLeaf(premine, Siacoin(PremineOutput, Output(net.params.premine, owner), 0), false),
                   ElementLeaf(index, ChainIndex(0, id), false)];
    assert [] + NewHashes(leaves, 0) == S.Genesis(net, owner, id, head).leaves;
    var growth := acc.AddLeaves(leaves, []);
  }

  /** One block of a run. */
  method AcceptNext(net: Network, owner: Address, id: BlockID, head: H.Head, ghost states: seq<State>,
                    ghost past: seq<Block>, s: State, b: Block, acc: ElementAccumulator)
    returns (ok: bool, next: State)
    requires head.height == 0 && R.Run(net, states, past) && states[0] == S.Genesis(net, owner, id, head)
    requires states[|past|] == s
    requires acc.Holds(s.leaves)
    modifies acc`numLeaves, acc.trees
    ensures ok <==> BlockVerdict(net, s, b) == Accepted && |Ledger.ApplyBlock(net, s, b).leaves| < MAX_LEAVES
    ensures !ok ==> next == s && acc.Holds(s.leaves)
    ensures !ok ==> BlockVerdict(net, s, b) == Rejected || |Ledger.ApplyBlock(net, s, b).leaves| >= MAX_LEAVES
    ensures ok ==> R.Step(net, s, b, next) && acc.Holds(next.leaves)
  {
    R.RunReaches(net, owner, id, head, states, past);
    S.NoOverflow(net, owner, id, head, past, s, b);
    var v := M.ValidateBlock(net, s, b, acc);
    next := Ledger.ApplyBlock(net, s, b);
    ok := v == Accepted && |next.leaves| < MAX_LEAVES;
    if !ok { return false, s; }
    S.ReachedGood(net, owner, id, head, past, s);
    var eau, added;
    ghost var updated;
    eau, added, updated := ApplyElements(net, s, b, acc, S.ChainSpends(past));
  }

  /** Validates and applies blocks from genesis on until one is not valid.  At every point the stored roots
      are those of the state that was reached, and validation never panics. */
  method Replay(net: Network, owner: Address, id: BlockID, head: H.Head, blocks: seq<Block>)
    returns (acc: ElementAccumulator, s: State, k: nat)
    requires head.height == 0
    ensures k <= |blocks| && S.Reached(net, owner, id, head, blocks[..k], s) && acc.Holds(s.leaves)
    ensures k < |blocks| ==>
              BlockVerdict(net, s, blocks[k]) == Rejected || |Ledger.ApplyBlock(net, s, blocks[k]).leaves| >= MAX_LEAVES
  {
    hide BlockVerdict, Ledger.ApplyBlock, S.Genesis, S.Reached, R.Step;
    acc := GenesisElements(net, owner, id, head);
    s, k := S.Genesis(net, owner, id, head), 0;
    ghost var states, past := [s], [];
    R.RunStart(net, s);
    var ok := true;
    while ok && k < |blocks|
      invariant k <= |blocks| && past == blocks[..k] && fresh(acc) && fresh(acc.trees) && acc.Holds(s.leaves)
      invariant R.Run(net, states, past) && states[0] == S.Genesis(net, owner, id, head) && states[k] == s
      invariant !ok ==>
                  && k < |blocks|
                  && (|| BlockVerdict(net, s, blocks[k]) == Rejected
                      || |Ledger.ApplyBlock(net, s, blocks[k]).leaves| >= MAX_LEAVES)
      decreases ok, |blocks| - k
    {
      var next;
      ok, next := AcceptNext(net, owner, id, head, states, past, s, blocks[k], acc);
      if ok {
        R.RunNext(net, states, past, blocks[k], next);
        R.Snoc(blocks, k);
        states, past := states + [next], past + [blocks[k]];
        s, k := next, k + 1;
      }
    }
    R.RunReaches(net, owner, id, head, states, past);
  }
}
