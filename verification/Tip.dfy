/** The theorems about chains, for the tip that chain selection has arrived at. */
module Tip {
  import opened Types
  import opened Bits
  import opened Utxo
  import opened Ledger
  import opened Manager
  import C = Currency
  import H = Difficulty
  import S = Safety

  lemma {:induction false} AppliesAsLedger(net: Network, s: State, b: Block)
    ensures RulesOf(net).apply(s, b) == ApplyBlock(net, s, b)
    ensures RulesOf(net).valid(s, b) <==> BlockVerdict(net, s, b) == Accepted
  {
    hide ApplyBlock, BlockVerdict;
  }

  lemma {:induction false} NextState(net: Network, s: State, bs: seq<Block>, k: nat, before: State)
    requires k < |bs| && S.StateAt(net, s, bs, k) == before
    ensures S.StateAt(net, s, bs, k + 1) == RulesOf(net).apply(before, bs[k])
  {
    hide ApplyBlock;
    AppliesAsLedger(net, before, bs[k]);
  }

  /** For the ledger's rules, folding is the run of ApplyBlock. */
  lemma {:induction false} FoldIsRun(net: Network, s: State, bs: seq<Block>, k: nat)
    requires k <= |bs|
    ensures S.StateAt(net, s, bs, k) == Fold(RulesOf(net), s, bs[..k])
  {
    hide ApplyBlock, RulesOf;
    if k > 0 {
      FoldIsRun(net, s, bs, k - 1);
      FoldPrefix(RulesOf(net), s, bs, k);
      NextState(net, s, bs, k - 1, Fold(RulesOf(net), s, bs[..k - 1]));
    }
  }

  /** The number of leaves stays below 2^63 along a chain. */
  ghost predicate LeavesFit(net: Network, s: State, bs: seq<Block>) {
    forall k :: 0 <= k <= |bs| ==> |S.StateAt(net, s, bs, k).leaves| < MAX_LEAVES
  }

  lemma {:induction false} NextIsValid(net: Network, s: State, bs: seq<Block>, k: nat)
    requires ValidRun(RulesOf(net), s, bs) && LeavesFit(net, s, bs) && k < |bs|
    ensures S.ValidNext(net, s, bs, k)
  {
    hide ApplyBlock, BlockVerdict, RulesOf;
    ValidAt(RulesOf(net), s, bs, k);
    FoldIsRun(net, s, bs, k);
    AppliesAsLedger(net, S.StateAt(net, s, bs, k), bs[k]);
    assert |S.StateAt(net, s, bs, k + 1).leaves| < MAX_LEAVES;
  }

  /** A validated block on a chain from genesis has a state that the chain's valid blocks reach. */
  lemma {:induction false} CheckedIsReached(net: Network, owner: Address, head: H.Head, g: BlockID, blocks: Blocks,
                                            states: States, id: BlockID)
    requires StoreOk(RulesOf(net), g, blocks, states) && id in blocks && blocks[id].checked
    requires head.height == 0 && g in states && states[g] == S.Genesis(net, owner, g, head)
    requires LeavesFit(net, states[g], ChainTo(g, blocks, id))
    ensures S.Reached(net, owner, g, head, ChainTo(g, blocks, id), states[id])
  {
    hide ApplyBlock, BlockVerdict, RulesOf, S.Genesis;
    var s, bs := states[g], ChainTo(g, blocks, id);
    CheckedIsFold(RulesOf(net), g, blocks, states, id);
    FoldIsRun(net, s, bs, |bs|);
    assert bs[..|bs|] == bs;
    forall k | 0 <= k < |bs|
      ensures S.ValidNext(net, s, bs, k)
    {
      NextIsValid(net, s, bs, k);
    }
  }

  /** What every state that valid blocks reach guarantees. */
  ghost predicate Sound(net: Network, bs: seq<Block>, s: State, b: Block) {
    && s.head.height == |bs| && Total(S.Unspent(s)) <= S.Emission(net, |bs|) < C.LIMIT && S.NoDup(S.ChainSpends(bs))
    && BlockVerdict(net, s, b) != Panicked
  }

  lemma {:induction false} ReachedIsSound(net: Network, owner: Address, id: BlockID, head: H.Head, bs: seq<Block>,
                                          s: State, b: Block)
    requires S.Reached(net, owner, id, head, bs, s)
    ensures Sound(net, bs, s, b)
  {
    hide ApplyBlock, BlockVerdict, S.Genesis, S.Reached;
    S.ReachedGood(net, owner, id, head, bs, s);
    S.SupplyBound(net, owner, id, head, bs, s);
    S.SingleSpend(net, owner, id, head, bs, s);
    S.NoOverflow(net, owner, id, head, bs, s, b);
  }

  /** Whatever chain selection does, the unspent outputs of its tip are worth at most the premine and the
      rewards up to its height, no output of its chain is spent twice, and no block that arrives next makes
      validation panic. */
  lemma {:induction false} TipIsSafe(m: Manager, net: Network, owner: Address, head: H.Head, b: Block)
    requires m.Valid() && m.rules == RulesOf(net)
    requires head.height == 0 && m.states[m.genesis] == S.Genesis(net, owner, m.genesis, head)
    requires LeavesFit(net, m.states[m.genesis], ChainTo(m.genesis, m.blocks, m.tipState.id))
    ensures var bs := ChainTo(m.genesis, m.blocks, m.tipState.id);
            S.Reached(net, owner, m.genesis, head, bs, m.tipState) && Sound(net, bs, m.tipState, b)
  {
    hide ApplyBlock, BlockVerdict, RulesOf, S.Genesis, S.Reached, Sound;
    var bs := ChainTo(m.genesis, m.blocks, m.tipState.id);
    CheckedIsReached(net, owner, head, m.genesis, m.blocks, m.states, m.tipState.id);
    ReachedIsSound(net, owner, m.genesis, head, bs, m.tipState, b);
  }

  /** A node from genesis on: whatever batches of blocks arrive, at whatever times, the store stays consistent
      and keeps its genesis, so that the tip is safe. */
  method Ingest(net: Network, owner: Address, genesis: Block, id: BlockID, head: H.Head,
                batches: seq<(seq<Block>, int)>)
    returns (m: Manager)
    requires S.Depth(id) == 1 && head.height == 0
    ensures m.Valid() && m.rules == RulesOf(net) && m.genesis == id && m.states[id] == S.Genesis(net, owner, id, head)
  {
    m := new Manager(net, genesis, S.Genesis(net, owner, id, head));
    for i := 0 to |batches|
      invariant fresh(m) && m.Valid() && m.rules == RulesOf(net) && m.genesis == id && id in m.blocks
      invariant m.blocks[id].checked
      invariant m.states[id] == S.Genesis(net, owner, id, head)
    {
      assert NodeOk(m.rules, id, m.blocks, m.states, id);
      var outcome := m.AddBlocks(batches[i].0, batches[i].1);
    }
  }

  /** Reverting the block with the canary proof restores a state without an activation height. */
  lemma {:induction false} ProofReverts(net: Network, g: BlockID, blocks: Blocks, states: States, id: BlockID)
    requires StoreOk(RulesOf(net), g, blocks, states) && id in blocks && blocks[id].checked && id != g
    requires S.CanaryProofs(blocks[id].block.txs) > 0
    ensures id.BlockID? && id.parent in states && states[id.parent].qdayHeight == 0 && states[id].qdayHeight != 0
  {
    assert NodeOk(RulesOf(net), g, blocks, states, id);
    S.BlockActivation(net, states[id.parent], blocks[id].block);
  }
}
