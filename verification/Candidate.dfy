/** The mining candidate: a block built from offered transactions that is valid but for its header. */
module Candidate {
  import opened Types
  import opened Utxo
  import opened Ledger
  import A = Accumulator
  import C = Currency
  import E = Envelope
  import L = LedgerPool
  import M = MidState
  import P = Policy
  import S = Safety
  import W = Swap

  function CoinbaseMarker(miner: Keys, nonce: nat): Tx {
    Tx([], [], E.Encoded(E.Envelope(E.COINBASE, nonce, [miner], E.NO_SECRET)), C.ZERO)
  }

  function WorkMarker(nonce: nat): Tx {
    Tx([], [], E.Encoded(E.Envelope(E.MINING_WORK, nonce, [], E.NO_SECRET)), C.ZERO)
  }

  function MinerAddress(miner: Keys): Address {
    P.AddressOf(W.NativePolicy(miner))
  }

  predicate ValidMiner(miner: Keys, nonce: nat) {
    E.Sized(miner) && W.ValidKeys(miner) && nonce < 0x1_0000_0000_0000_0000
  }

  /** The markers parse back to what they were made from, and are small. */
  lemma {:induction false} MarkersParse(net: Network, miner: Keys, nonce: nat)
    requires ValidMiner(miner, nonce)
    ensures E.Parsed(CoinbaseMarker(miner, nonce).data) == Ok(E.Envelope(E.COINBASE, nonce, [miner], E.NO_SECRET))
    ensures E.Parsed(WorkMarker(nonce).data) == Ok(E.Envelope(E.MINING_WORK, nonce, [], E.NO_SECRET))
    ensures Weight(net, WorkMarker(nonce)) == 16 && Weight(net, CoinbaseMarker(miner, nonce)) == 80
  {
    E.ParseEncode(E.Envelope(E.COINBASE, nonce, [miner], E.NO_SECRET));
    E.ParseEncode(E.Envelope(E.MINING_WORK, nonce, [], E.NO_SECRET));
  }

  // ---- The transactions taken ----

  function BlockTxs(net: Network, s: State, miner: Keys, nonce: nat, taken: seq<Tx>): seq<Tx> {
    [CoinbaseMarker(miner, nonce)] + taken + if V1Active(net, Child(s)) then [WorkMarker(nonce)] else []
  }

  lemma {:induction false} IdleTx(ms: Mid, tx: Tx)
    requires Linked(ms) && tx.inputs == [] && tx.outputs == [] && !IsCanaryProof(tx)
    ensures ApplyTx(ms, tx) == ms
  {
    assert SpendInputs(ms, tx, 0) == ms && CreateOutputs(ms, tx, 0) == ms;
  }

  /** The coinbase marker does not change what the transactions after it are validated against. */
  lemma {:induction false} AfterMarker<T>(r: L.P.Rules<T>, marker: Tx, taken: seq<Tx>)
    requires r.apply(r.start, marker) == r.start
    ensures L.P.Fold(r, [marker] + taken) == L.P.Fold(r, taken)
  {
    var all := [marker] + taken;
    if taken == [] {
      assert all[..|all| - 1] == [];
    } else {
      AfterMarker(r, marker, taken[..|taken| - 1]);
      assert all[..|all| - 1] == [marker] + taken[..|taken| - 1];
    }
  }

  /** txs are the coinbase marker, the transactions taken and, once V1 is active, the work marker. */
  predicate Layout(net: Network, s: State, txs: seq<Tx>, taken: seq<Tx>) {
    |txs| == |taken| + (if V1Active(net, Child(s)) then 2 else 1) && txs[1..|taken| + 1] == taken
  }

  lemma {:induction false} TakenValid<T>(r: L.P.Rules<T>, txs: seq<Tx>, taken: seq<Tx>, k: nat)
    requires L.P.PrefixesValid(r, taken) && 0 < k <= |taken| < |txs| && txs[1..|taken| + 1] == taken
    requires r.apply(r.start, txs[0]) == r.start
    ensures r.valid(L.P.Fold(r, txs[..k]), txs[k])
  {
    L.P.PrefixValid(r, taken, k - 1);
    AfterMarker(r, txs[0], taken[..k - 1]);
    assert txs[..k] == [txs[0]] + taken[..k - 1];
    assert txs[k] == txs[1..|taken| + 1][k - 1];
  }

  lemma {:induction false} CandidateNext(net: Network, s: State, txs: seq<Tx>, taken: seq<Tx>, k: nat)
    requires L.PoolValid(net, s, taken) && 0 < k <= |taken| < |txs| && txs[1..|taken| + 1] == taken
    requires ApplyTx(NewMid(s), txs[0]) == NewMid(s)
    ensures TxVerdict(net, ApplyTxs(NewMid(s), txs[..k]), txs[k]) == Accepted
  {
    L.FoldIsApply(net, s, taken);
    L.FoldStep(net, s, NewMid(s), txs[0]);
    TakenValid(L.PoolRules(net, s), txs, taken, k);
    L.FoldIsApply(net, s, txs[..k]);
    L.FoldStep(net, s, ApplyTxs(NewMid(s), txs[..k]), txs[k]);
  }

  predicate CandidateStep(net: Network, s: State, txs: seq<Tx>, k: nat)
    requires k < |txs|
  {
    TxsVerdict(net, s, txs, k) == Accepted ==> TxsVerdict(net, s, txs, k + 1) == Accepted
  }

  lemma {:induction false} StepsAccepted(net: Network, s: State, txs: seq<Tx>, k: nat)
    requires k <= |txs| && forall i :: 0 <= i < |txs| ==> CandidateStep(net, s, txs, i)
    ensures TxsVerdict(net, s, txs, k) == Accepted
  {
    if k > 0 {
      StepsAccepted(net, s, txs, k - 1);
      assert CandidateStep(net, s, txs, k - 1);
    }
  }

  /** The transactions of the candidate pass one after the other. */
  lemma {:induction false} CandidateTxs(net: Network, s: State, txs: seq<Tx>, taken: seq<Tx>)
    requires L.PoolValid(net, s, taken) && Layout(net, s, txs, taken) && ApplyTx(NewMid(s), txs[0]) == NewMid(s)
    ensures TxsVerdict(net, s, txs, |txs|) == Accepted
  {
    forall k | 0 <= k < |txs|
      ensures CandidateStep(net, s, txs, k)
    {
      if !IsMarker(net, s, txs, k) { CandidateNext(net, s, txs, taken, k); }
      if TxsVerdict(net, s, txs, k) == Accepted { M.NextVerdict(net, s, txs, k); }
    }
    StepsAccepted(net, s, txs, |txs|);
  }

  // ---- Weights and fees ----

  lemma {:induction false} WeightAppend(net: Network, txs: seq<Tx>, tx: Tx)
    ensures BlockWeight(net, txs + [tx]) == BlockWeight(net, txs) + Weight(net, tx)
    ensures SumFees(txs + [tx]) == SumFees(txs) + tx.fee.Val()
  {
    assert (txs + [tx])[..|txs|] == txs;
  }

  lemma {:induction false} WeightPrepend(net: Network, tx: Tx, txs: seq<Tx>)
    ensures BlockWeight(net, [tx] + txs) == Weight(net, tx) + BlockWeight(net, txs)
    ensures SumFees([tx] + txs) == tx.fee.Val() + SumFees(txs)
  {
    if txs == [] {
      WeightAppend(net, [], tx);
      assert [tx] + txs == [] + [tx];
    } else {
      WeightPrepend(net, tx, txs[..|txs| - 1]);
      assert ([tx] + txs)[..|txs|] == [tx] + txs[..|txs| - 1];
    }
  }

  /** The fees of valid transactions are paid out of the supply, so the payout fits. */
  lemma {:induction false} PayoutFits(net: Network, s: State, taken: seq<Tx>, ids: seq<OutputID>)
    requires S.ChainGood(net, s, ids) && L.PoolValid(net, s, taken)
    ensures BlockReward(net, s).Val() + SumFees(taken) < C.LIMIT
  {
    L.PoolGood(net, s, taken, ids);
    S.EmissionStep(net, s);
    S.EmissionFits(net, Child(s));
  }

  // ---- The block ----

  /** The transactions taken: each offered one that still fits and is valid after those before it. */
  function Taken(net: Network, s: State, weight: nat, offered: seq<Tx>): seq<Tx> {
    if offered == [] then []
    else
      var taken, tx := Taken(net, s, weight, offered[..|offered| - 1]), offered[|offered| - 1];
      if weight + BlockWeight(net, taken) + Weight(net, tx) > MAX_WEIGHT then taken
      else if TxVerdict(net, ApplyTxs(NewMid(s), taken), tx) != Accepted then taken
      else taken + [tx]
  }

  /** The block carries the markers around the transactions taken, and everything that they determine. */
  predicate CandidateOk(net: Network, s: State, b: Block, miner: Keys, nonce: nat, taken: seq<Tx>) {
    && b.parent == s.id && b.height == Child(s) && b.txs == BlockTxs(net, s, miner, nonce, taken)
    && |b.payouts| == 1 && b.payouts[0].address == MinerAddress(miner)
    && b.payouts[0].value.Val() == BlockReward(net, s).Val() + SumFees(taken)
    && b.commitment == net.env.commitment(s, MinerAddress(miner), b.txs)
  }

  lemma {:induction false} CandidateMarkers(net: Network, s: State, b: Block, miner: Keys, nonce: nat, taken: seq<Tx>)
    requires ValidMiner(miner, nonce) && CandidateOk(net, s, b, miner, nonce, taken)
    ensures MarkersOk(net, s, b) && CommitmentOk(net, s, b)
    ensures Layout(net, s, b.txs, taken) && ApplyTx(NewMid(s), b.txs[0]) == NewMid(s)
  {
    MarkersParse(net, miner, nonce);
    IdleTx(NewMid(s), CoinbaseMarker(miner, nonce));
    assert b.txs[1..|taken| + 1] == taken;
  }

  lemma {:induction false} CandidateWeight(net: Network, s: State, miner: Keys, nonce: nat, taken: seq<Tx>)
    requires ValidMiner(miner, nonce)
    ensures BlockWeight(net, BlockTxs(net, s, miner, nonce, taken))
         <= Weight(net, CoinbaseMarker(miner, nonce)) + 128 + BlockWeight(net, taken)
    ensures SumFees(BlockTxs(net, s, miner, nonce, taken)) == SumFees(taken)
  {
    var marker, work := CoinbaseMarker(miner, nonce), WorkMarker(nonce);
    MarkersParse(net, miner, nonce);
    WeightPrepend(net, marker, taken);
    WeightAppend(net, [marker] + taken, work);
    assert [marker] + taken + [] == [marker] + taken;
  }

  /** Every rule of ValidateBlock but the header's holds, so a nonce with enough work makes it valid. */
  lemma {:induction false} CandidateValid(net: Network, s: State, b: Block, miner: Keys, nonce: nat, taken: seq<Tx>,
                                          ids: seq<OutputID>)
    requires ValidMiner(miner, nonce) && S.ChainGood(net, s, ids) && L.PoolValid(net, s, taken)
    requires Weight(net, CoinbaseMarker(miner, nonce)) + 128 + BlockWeight(net, taken) <= MAX_WEIGHT
    requires CandidateOk(net, s, b, miner, nonce, taken)
    ensures MarkersOk(net, s, b) && PayoutsOk(net, s, b) && BlockWeight(net, b.txs) <= MAX_WEIGHT
    ensures CommitmentOk(net, s, b) && TxsVerdict(net, s, b.txs, |b.txs|) == Accepted
    ensures HeaderOk(net, s, b) ==> BlockVerdict(net, s, b) == Accepted
  {
    hide TxsVerdict, S.ChainGood, L.PoolValid;
    CandidateMarkers(net, s, b, miner, nonce, taken);
    CandidateWeight(net, s, miner, nonce, taken);
    PayoutFits(net, s, taken, ids);
    CandidateTxs(net, s, b.txs, taken);
  }

  /** The block around the transactions taken. */
  method Assemble(net: Network, s: State, miner: Keys, taken: seq<Tx>, value: C.Currency, timestamp: int, nonce: nat)
    returns (b: Block)
    requires value.Val() == BlockReward(net, s).Val() + SumFees(taken)
    ensures CandidateOk(net, s, b, miner, nonce, taken) && b.timestamp == timestamp && |b.payouts| == 1
  {
    var marker := CoinbaseMarker(miner, nonce);
    var txs := [marker] + taken;
    if V1Active(net, Child(s)) {
      txs := txs + [WorkMarker(nonce)];
    }
    assert [marker] + taken + [] == [marker] + taken;
    var commitment := net.env.commitment(s, MinerAddress(miner), txs);
    b := Block(s.id, 0, timestamp, [Output(value, MinerAddress(miner))], Child(s), commitment, txs);
  }

  /** CandidateWithNonce. */
  method BuildCandidate(net: Network, s: State, miner: Keys, offered: seq<Tx>, timestamp: int, nonce: nat,
                        acc: A.ElementAccumulator, ghost ids: seq<OutputID>) returns (b: Block)
    requires ValidMiner(miner, nonce) && S.ChainGood(net, s, ids) && acc.Holds(s.leaves)
    ensures var start := Weight(net, CoinbaseMarker(miner, nonce)) + 128;
            CandidateOk(net, s, b, miner, nonce, Taken(net, s, start, offered))
    ensures b.timestamp == timestamp
    ensures MarkersOk(net, s, b) && PayoutsOk(net, s, b) && BlockWeight(net, b.txs) <= MAX_WEIGHT
    ensures CommitmentOk(net, s, b) && TxsVerdict(net, s, b.txs, |b.txs|) == Accepted
    ensures HeaderOk(net, s, b) ==> BlockVerdict(net, s, b) == Accepted
  {
    hide MarkersOk, PayoutsOk, TxsVerdict, BlockVerdict, HeaderOk, Taken, CandidateOk, L.PoolValid, S.ChainGood, Weight;
    var marker := CoinbaseMarker(miner, nonce);
    var taken, value := TakeAll(net, s, Weight(net, marker) + 128, offered, acc, ids);
    b := Assemble(net, s, miner, taken, value, timestamp, nonce);
    MarkersParse(net, miner, nonce);
    CandidateValid(net, s, b, miner, nonce, taken, ids);
  }

  /** Applies a transaction if it fits and is valid. */
  method Offer(net: Network, ms: M.MidState, weight: nat, tx: Tx, acc: A.ElementAccumulator) returns (take: bool)
    requires Linked(ms.Value()) && acc.Holds(ms.base.leaves)
    modifies ms`elements, ms`sces, ms`spends, ms`proved
    ensures take <==> weight + Weight(net, tx) <= MAX_WEIGHT && TxVerdict(net, old(ms.Value()), tx) == Accepted
    ensures ms.Value() == if take then ApplyTx(old(ms.Value()), tx) else old(ms.Value())
  {
    if weight + Weight(net, tx) > MAX_WEIGHT {
      return false;
    }
    var v := M.ValidateTransaction(net, ms, tx, acc);
    if v != Accepted {
      return false;
    }
    ms.ApplyTransaction(tx);
    take := true;
  }

  lemma {:induction false} NoneTaken(net: Network, s: State, weight: nat, offered: seq<Tx>)
    ensures Taken(net, s, weight, offered[..0]) == [] && L.PoolValid(net, s, [])
    ensures ApplyTxs(NewMid(s), []) == NewMid(s) && SumFees([]) == 0 && BlockWeight(net, []) == 0
  {}

  lemma {:induction false} TakenStep(net: Network, s: State, weight: nat, offered: seq<Tx>, i: nat)
    requires i < |offered|
    ensures Taken(net, s, weight, offered[..i + 1]) ==
            var taken := Taken(net, s, weight, offered[..i]);
            if weight + BlockWeight(net, taken) + Weight(net, offered[i]) <= MAX_WEIGHT
               && TxVerdict(net, ApplyTxs(NewMid(s), taken), offered[i]) == Accepted then taken + [offered[i]]
            else taken
  {
    assert offered[..i + 1][..i] == offered[..i];
  }

  /** The loop over the offered transactions. */
  method TakeAll(net: Network, s: State, start: nat, offered: seq<Tx>, acc: A.ElementAccumulator,
                 ghost ids: seq<OutputID>)
    returns (taken: seq<Tx>, value: C.Currency)
    requires S.ChainGood(net, s, ids) && acc.Holds(s.leaves)
    ensures taken == Taken(net, s, start, offered) && L.PoolValid(net, s, taken)
    ensures value.Val() == BlockReward(net, s).Val() + SumFees(taken)
    ensures start <= MAX_WEIGHT ==> start + BlockWeight(net, taken) <= MAX_WEIGHT
  {
    hide TxVerdict, ApplyTx, ApplyTxs, Weight, BlockWeight, SumFees, Taken, L.PoolValid, S.ChainGood;
    var ms := new M.MidState(s);
    taken, value := [], BlockReward(net, s);
    var weight := start;
    NoneTaken(net, s, start, offered);
    for i := 0 to |offered|
      invariant ms.base == s && ms.Value() == ApplyTxs(NewMid(s), taken)
      invariant taken == Taken(net, s, start, offered[..i]) && L.PoolValid(net, s, taken)
      invariant value.Val() == BlockReward(net, s).Val() + SumFees(taken)
      invariant weight == start + BlockWeight(net, taken) && (start <= MAX_WEIGHT ==> weight <= MAX_WEIGHT)
    {
      var tx := offered[i];
      TakenStep(net, s, start, offered, i);
      var take := Offer(net, ms, weight, tx, acc);
      if take {
        TakeOne(net, s, taken, tx, ids);
        weight := weight + Weight(net, tx);
        taken := taken + [tx];
        value := C.Add(value, tx.fee);
      }
    }
    assert offered[..|offered|] == offered;
  }

  lemma {:induction false} TakeOne(net: Network, s: State, taken: seq<Tx>, tx: Tx, ids: seq<OutputID>)
    requires S.ChainGood(net, s, ids) && L.PoolValid(net, s, taken)
    requires TxVerdict(net, ApplyTxs(NewMid(s), taken), tx) == Accepted
    ensures L.PoolValid(net, s, taken + [tx])
    ensures ApplyTxs(NewMid(s), taken + [tx]) == ApplyTx(ApplyTxs(NewMid(s), taken), tx)
    ensures BlockWeight(net, taken + [tx]) == BlockWeight(net, taken) + Weight(net, tx)
    ensures SumFees(taken + [tx]) == SumFees(taken) + tx.fee.Val()
    ensures BlockReward(net, s).Val() + SumFees(taken + [tx]) < C.LIMIT
  {
    assert (taken + [tx])[..|taken|] == taken;
    PayoutFits(net, s, taken + [tx], ids);
  }
}
