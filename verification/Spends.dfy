/** Who can spend an output of the ledger: what an accepted transaction must carry, by the address of the
    coin that it takes. */
module Spends {
  import opened Types
  import opened Utxo
  import opened Ledger
  import opened Refinement
  import P = Policy
  import W = Swap

  /** What the signatures of a transaction are checked against. */
  function ContextOf(net: Network, s: State, tx: Tx): P.Context {
    P.Context(net.env.crypto, s.head.height, Median(net, s), TxIdOf(tx))
  }

  /** The unspent coins as they are when a transaction is validated. */
  function Coins(ms: Mid): map<OutputID, Coin> {
    Live(MidEntries(ms))
  }

  /** An accepted input takes an unspent coin, and reveals and satisfies the policy of its address. */
  lemma {:induction false} AcceptedSpend(net: Network, ms: Mid, tx: Tx, k: nat)
    requires MidInv(ms) && TxVerdict(net, ms, tx) == Accepted && k < |tx.inputs|
    ensures var i := tx.inputs[k];
            && i.parent.id in Coins(ms) && Coins(ms)[i.parent.id] == CoinOf(i.parent)
            && P.AddressOf(i.policy) == Coins(ms)[i.parent.id].output.address
            && P.Satisfied(ContextOf(net, ms.base, tx), i.policy, i.sigs, i.preimages)
            && PolicyAllowed(net, ms.base, i.policy)
  {
    var i := tx.inputs[k];
    assert InputOk(net, ms, tx, i);
    AvailableIsLive(ms, i.parent);
    LiveAt(MidEntries(ms), Position(ms, i.parent));
  }

  /** An accepted transaction takes a coin of a swap's address only as the claim, with both recipient
      signatures and a preimage of the secret hash, or as the refund, with both refund signatures and on a
      chain that has reached the refund height; and not before swaps are active. */
  lemma {:induction false} SwapInput(net: Network, ms: Mid, tx: Tx, k: nat, swap: W.AtomicSwap)
    requires MidInv(ms) && TxVerdict(net, ms, tx) == Accepted && k < |tx.inputs| && tx.inputs[k].parent.id in Coins(ms)
    requires Coins(ms)[tx.inputs[k].parent.id].output.address == P.AddressOf(W.FullPolicy(swap))
    ensures var i, c := tx.inputs[k], ContextOf(net, ms.base, tx);
            || (i.policy == W.ClaimPolicy(swap) && W.Claims(c, swap, i.sigs, i.preimages))
            || (i.policy == W.RefundPolicy(swap) && W.Refunds(c, swap, i.sigs, i.preimages)
                && ms.base.head.height >= swap.refundHeight)
    ensures V1Active(net, Child(ms.base))
  {
    var i := tx.inputs[k];
    AcceptedSpend(net, ms, tx, k);
    W.SwapSpendIff(ContextOf(net, ms.base, tx), swap, i.policy, i.sigs, i.preimages);
  }

  /** An accepted transaction takes a coin of a native address only with both of its keys' signatures. */
  lemma {:induction false} NativeInput(net: Network, ms: Mid, tx: Tx, k: nat, keys: Keys)
    requires MidInv(ms) && TxVerdict(net, ms, tx) == Accepted && k < |tx.inputs| && tx.inputs[k].parent.id in Coins(ms)
    requires Coins(ms)[tx.inputs[k].parent.id].output.address == P.AddressOf(W.NativePolicy(keys))
    ensures var i := tx.inputs[k];
            && i.policy == W.NativePolicy(keys)
            && W.HybridSigned(ContextOf(net, ms.base, tx), keys, i.sigs, i.preimages, 0)
  {
    var i := tx.inputs[k];
    AcceptedSpend(net, ms, tx, k);
    W.NativeSpendIff(ContextOf(net, ms.base, tx), keys, i.policy, i.sigs, i.preimages);
  }
}
