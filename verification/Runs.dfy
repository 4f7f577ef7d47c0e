/** Runs of the chain, as the list of the states they pass through. */
module Runs {
  import opened Types
  import opened Bits
  import opened Ledger
  import H = Difficulty
  import S = Safety

  ghost predicate Step(net: Network, before: State, b: Block, after: State) {
    BlockVerdict(net, before, b) == Accepted && after == ApplyBlock(net, before, b) && |after.leaves| < MAX_LEAVES
  }

  /** Every block is accepted by the state before it and leads to the state after it. */
  ghost predicate Run(net: Network, states: seq<State>, blocks: seq<Block>) {
    && |states| == |blocks| + 1
    && forall i {:trigger blocks[i]} :: 0 <= i < |blocks| ==> Step(net, states[i], blocks[i], states[i + 1])
  }

  lemma {:induction false} StepAt(net: Network, states: seq<State>, blocks: seq<Block>, i: nat)
    requires i < |blocks| && Run(net, states, blocks)
    ensures Step(net, states[i], blocks[i], states[i + 1])
  {
    var b := blocks[i];
  }

  lemma Snoc<T>(xs: seq<T>, k: nat)
    requires k < |xs|
    ensures xs[..k] + [xs[k]] == xs[..k + 1]
  {}

  lemma {:induction false} StateNext(net: Network, s: State, blocks: seq<Block>, k: nat, before: State, after: State)
    requires k < |blocks| && S.StateAt(net, s, blocks, k) == before && Step(net, before, blocks[k], after)
    ensures S.StateAt(net, s, blocks, k + 1) == after && S.ValidNext(net, s, blocks, k)
  {}

  lemma {:induction false} StateIs(net: Network, states: seq<State>, blocks: seq<Block>, k: nat)
    requires k <= |blocks| && Run(net, states, blocks)
    ensures S.StateAt(net, states[0], blocks, k) == states[k]
  {
    if k > 0 {
      var j := k - 1;
      StateIs(net, states, blocks, j);
      StepAt(net, states, blocks, j);
      StateNext(net, states[0], blocks, j, states[j], states[j + 1]);
    }
  }

  lemma {:induction false} StepIs(net: Network, states: seq<State>, blocks: seq<Block>, k: nat)
    requires k < |blocks| && Run(net, states, blocks)
    ensures S.ValidNext(net, states[0], blocks, k)
  {
    StateIs(net, states, blocks, k);
    StateNext(net, states[0], blocks, k, states[k], states[k + 1]);
  }

  /** A run from genesis ends in a state that its blocks reach. */
  lemma {:induction false} RunReaches(net: Network, owner: Address, id: BlockID, head: H.Head, states: seq<State>,
                                      blocks: seq<Block>)
    requires Run(net, states, blocks) && head.height == 0 && states[0] == S.Genesis(net, owner, id, head)
    ensures S.Reached(net, owner, id, head, blocks, states[|blocks|])
  {
    forall k | 0 <= k < |blocks|
      ensures S.ValidNext(net, states[0], blocks, k)
    {
      StepIs(net, states, blocks, k);
    }
    StateIs(net, states, blocks, |blocks|);
  }

  lemma {:induction false} RunStart(net: Network, s: State)
    ensures Run(net, [s], [])
  {}

  lemma {:induction false} RunNext(net: Network, states: seq<State>, blocks: seq<Block>, b: Block, after: State)
    requires Run(net, states, blocks) && Step(net, states[|blocks|], b, after)
    ensures Run(net, states + [after], blocks + [b])
  {
    forall i | 0 <= i < |blocks| + 1
      ensures Step(net, (states + [after])[i], (blocks + [b])[i], (states + [after])[i + 1])
    {
      if i < |blocks| { assert Step(net, states[i], blocks[i], states[i + 1]); }
    }
  }
}
