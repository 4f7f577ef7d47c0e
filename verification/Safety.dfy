/** What every chain of valid blocks keeps: the supply bound, single spending, and one activation. */
module Safety {
  import opened Types
  import opened Utxo
  import opened Forest
  import opened Bits
  import opened Ledger
  import opened Refinement
  import C = Currency
  import D = Decay
  import H = Difficulty

  // ---- Values ----

  lemma {:induction false} InputWorth(net: Network, s: State, i: Input)
    ensures InputValue(net, s, i).Val() <= CoinOf(i.parent).Value()
  {
    D.ValueNonIncreasing(net.params, s.qdayHeight, i.parent.output.value, i.parent.maturity, Child(s), Child(s));
  }

  lemma {:induction false} ClaimsStep(inputs: seq<Input>, k: nat)
    requires 0 < k <= |inputs|
    ensures SumClaims(ClaimsOf(inputs)[..k])
         == SumClaims(ClaimsOf(inputs)[..k - 1]) + CoinOf(inputs[k - 1].parent).Value()
  {
    assert ClaimsOf(inputs)[..k][..k - 1] == ClaimsOf(inputs)[..k - 1];
  }

  lemma {:induction false} InputSumBound(net: Network, s: State, inputs: seq<Input>, k: nat)
    requires k <= |inputs|
    ensures InputSum(net, s, inputs, k) <= SumClaims(ClaimsOf(inputs)[..k])
  {
    if k > 0 {
      InputSumBound(net, s, inputs, k - 1);
      InputWorth(net, s, inputs[k - 1]);
      ClaimsStep(inputs, k);
    }
  }

  lemma {:induction false} InputsWorth(net: Network, s: State, inputs: seq<Input>)
    ensures InputSum(net, s, inputs, |inputs|) <= SumClaims(ClaimsOf(inputs))
  {
    InputSumBound(net, s, inputs, |inputs|);
    assert ClaimsOf(inputs)[..|inputs|] == ClaimsOf(inputs);
  }

  // ---- Outputs that are gone for good ----

  predicate Differ(ids: seq<OutputID>, i: nat, j: nat)
    requires i < |ids| && j < |ids|
  {
    ids[i] != ids[j]
  }

  predicate NoDup(ids: seq<OutputID>) {
    forall i, j {:trigger Differ(ids, i, j)} :: 0 <= i < j < |ids| ==> Differ(ids, i, j)
  }

  /** These outputs are all different, have existed, and are not unspent. */
  ghost predicate Gone(ids: seq<OutputID>, b: Book) {
    NoDup(ids) && forall i :: 0 <= i < |ids| ==> ids[i] in b.used && ids[i] !in b.coins
  }

  lemma {:induction false} GoneStep(b: Book, ids: seq<OutputID>, claims: Claims, tx: TxID, maturity: nat)
    requires BookInv(b) && Gone(ids, b) && Spendable(b, claims) && claims != [] && tx.parents == ClaimIds(claims)
    ensures Gone(ids + ClaimIds(claims), Transact(b, claims, tx, maturity))
  {
    TransactKeeps(b, claims, tx, maturity);
    var all, b' := ids + ClaimIds(claims), Transact(b, claims, tx, maturity);
    forall i | 0 <= i < |all|
      ensures all[i] in b'.used && all[i] !in b'.coins
    {
      if i < |ids| { assert all[i] in b.used - b.coins.Keys; }
      else { assert claims[i - |ids|].0 in IdSet(claims); }
    }
    forall i, j | 0 <= i < j < |all|
      ensures Differ(all, i, j)
    {
      if j < |ids| { assert Differ(ids, i, j); }
    }
  }

  // ---- Within a block ----

  /** After some transactions of a block on s that paid these fees and spent these outputs after ids. */
  ghost predicate MidGood(s: State, ms: Mid, fees: nat, ids: seq<OutputID>)
    requires UniqueIds(Entries(s.leaves))
  {
    && MidInv(ms) && ms.base == s
    && var b0, b := BookOf(Entries(s.leaves)), BookOf(MidEntries(ms));
    && BookInv(b) && Total(b.coins) + fees <= Total(b0.coins)
    && (forall id :: id in b.used ==> id in b0.used || id.TxOutput?)
    && Gone(ids, b)
  }

  lemma {:induction false} NewMidGood(s: State, ids: seq<OutputID>)
    requires UniqueIds(Entries(s.leaves)) && |s.leaves| < MAX_LEAVES
    requires BookInv(BookOf(Entries(s.leaves))) && Gone(ids, BookOf(Entries(s.leaves)))
    ensures MidGood(s, NewMid(s), 0, ids)
  {
    assert NewLeaves(s.leaves, []) == s.leaves;
  }

  lemma {:induction false} MarkerStep(s: State, ms: Mid, fees: nat, ids: seq<OutputID>, tx: Tx)
    requires UniqueIds(Entries(s.leaves)) && MidGood(s, ms, fees, ids) && tx.inputs == [] && tx.outputs == []
    ensures MidGood(s, ApplyTx(ms, tx), fees, ids) && ApplyTx(ms, tx).proved == (ms.proved || IsCanaryProof(tx))
  {
    ProvedIrrelevant(ms, ms.proved || IsCanaryProof(tx));
  }

  lemma {:induction false} AcceptedInputs(net: Network, ms: Mid, tx: Tx)
    requires Linked(ms) && TxVerdict(net, ms, tx) == Accepted
    ensures AllAvailable(ms, tx.inputs, 0) && tx.inputs != []
    ensures SumOutputs(tx.outputs, |tx.outputs|) + tx.fee.Val() <= SumClaims(ClaimsOf(tx.inputs))
  {
    InputsWorth(net, ms.base, tx.inputs);
    forall i | 0 <= i < |tx.inputs|
      ensures Available(ms, tx.inputs[i].parent)
    {
      assert InputOk(net, ms, tx, tx.inputs[i]);
    }
  }

  /** An accepted transaction destroys at least what it pays in fees, and what it spends was never spent. */
  lemma {:induction false} TxStep(net: Network, s: State, ms: Mid, fees: nat, ids: seq<OutputID>, tx: Tx)
    requires UniqueIds(Entries(s.leaves)) && MidGood(s, ms, fees, ids)
    requires TxVerdict(net, ms, tx) == Accepted
    ensures MidGood(s, ApplyTx(ms, tx), fees + tx.fee.Val(), ids + InputIds(tx.inputs))
    ensures ApplyTx(ms, tx).proved == (ms.proved || IsCanaryProof(tx))
  {
    var b, claims, id := BookOf(MidEntries(ms)), ClaimsOf(tx.inputs), TxIdOf(tx);
    AcceptedInputs(net, ms, tx);
    InputsSpendable(ms, tx.inputs);
    ClaimIdsAre(tx.inputs);
    ApplyTxStep(ms, tx);
    TransactKeeps(b, claims, id, Child(s));
    TransactUsed(b, claims, id, Child(s));
    GoneStep(b, ids, claims, id, Child(s));
  }

  lemma {:induction false} TransactUsed(b: Book, claims: Claims, tx: TxID, maturity: nat)
    requires BookInv(b) && Spendable(b, claims)
    ensures forall id :: id in Transact(b, claims, tx, maturity).used ==> id in b.used || id.TxOutput?
  {
    SpendAllKeeps(b, claims);
    CreateAllUsed(SpendAll(b, claims), tx, |tx.outputs|, maturity);
  }

  lemma {:induction false} CreateAllUsed(b: Book, tx: TxID, n: nat, maturity: nat)
    requires n <= |tx.outputs|
    ensures forall id :: id in CreateAll(b, tx, n, maturity).used ==> id in b.used || id.TxOutput?
  {
    if n > 0 { CreateAllUsed(b, tx, n - 1, maturity); }
  }

  /** As long as the supply fits, adding up the inputs of a transaction does not overflow. */
  lemma {:induction false} TxNoPanic(net: Network, s: State, ms: Mid, fees: nat, ids: seq<OutputID>, tx: Tx)
    requires UniqueIds(Entries(s.leaves)) && MidGood(s, ms, fees, ids)
    requires Total(BookOf(Entries(s.leaves)).coins) < C.LIMIT
    ensures TxVerdict(net, ms, tx) != Panicked
  {
    if InputsOk(net, ms, tx) {
      forall i | 0 <= i < |tx.inputs|
        ensures Available(ms, tx.inputs[i].parent)
      {
        assert InputOk(net, ms, tx, tx.inputs[i]);
      }
      InputsSpendable(ms, tx.inputs);
      SpendAllKeeps(BookOf(MidEntries(ms)), ClaimsOf(tx.inputs));
      InputsWorth(net, s, tx.inputs);
    }
  }

  // ---- One block ----

  /** The outputs spent before, and then by these transactions, in order. */
  function SpentIds(before: seq<OutputID>, txs: seq<Tx>): seq<OutputID> {
    if txs == [] then before else SpentIds(before, txs[..|txs| - 1]) + InputIds(txs[|txs| - 1].inputs)
  }

  function CanaryProofs(txs: seq<Tx>): nat {
    if txs == [] then 0 else CanaryProofs(txs[..|txs| - 1]) + if IsCanaryProof(txs[|txs| - 1]) then 1 else 0
  }

  /** The state after a prefix of a block's transactions. */
  function MidAt(s: State, txs: seq<Tx>, k: nat): (ms: Mid)
    requires k <= |txs|
    ensures Linked(ms)
  {
    ApplyTxs(NewMid(s), txs[..k])
  }

  lemma {:induction false} Prefix(s: State, ids: seq<OutputID>, txs: seq<Tx>, k: nat)
    requires 0 < k <= |txs|
    ensures MidAt(s, txs, k) == ApplyTx(MidAt(s, txs, k - 1), txs[k - 1])
    ensures SumFees(txs[..k]) == SumFees(txs[..k - 1]) + txs[k - 1].fee.Val()
    ensures SpentIds(ids, txs[..k]) == SpentIds(ids, txs[..k - 1]) + InputIds(txs[k - 1].inputs)
    ensures CanaryProofs(txs[..k]) == CanaryProofs(txs[..k - 1]) + if IsCanaryProof(txs[k - 1]) then 1 else 0
  {
    assert txs[..k][..k - 1] == txs[..k - 1];
  }

  ghost predicate StateGood(s: State, ids: seq<OutputID>) {
    && |s.leaves| < MAX_LEAVES && Indexed(s.leaves) && UniqueIds(Entries(s.leaves))
    && BookInv(BookOf(Entries(s.leaves))) && Gone(ids, BookOf(Entries(s.leaves)))
  }

  /** A marker spends nothing, creates nothing, pays nothing and proves nothing. */
  predicate Idle(tx: Tx) {
    tx.inputs == [] && tx.outputs == [] && tx.fee.Val() == 0 && !IsCanaryProof(tx)
  }

  predicate IdleMarkers(net: Network, s: State, txs: seq<Tx>) {
    forall i :: 0 <= i < |txs| && IsMarker(net, s, txs, i) ==> Idle(txs[i])
  }

  lemma {:induction false} MarkersIdle(net: Network, s: State, b: Block)
    requires MarkersOk(net, s, b)
    ensures IdleMarkers(net, s, b.txs)
  {}

  /** The last of an accepted prefix is a marker or a valid transaction. */
  lemma {:induction false} LastAccepted(net: Network, s: State, txs: seq<Tx>, k: nat)
    requires 0 < k <= |txs| && TxsVerdict(net, s, txs, k) == Accepted
    ensures TxsVerdict(net, s, txs, k - 1) == Accepted
    ensures IsMarker(net, s, txs, k - 1) || TxVerdict(net, MidAt(s, txs, k - 1), txs[k - 1]) == Accepted
  {}

  lemma {:induction false} LastGood(net: Network, s: State, ms: Mid, fees: nat, gone: seq<OutputID>, tx: Tx,
                                    marker: bool)
    requires UniqueIds(Entries(s.leaves)) && MidGood(s, ms, fees, gone)
    requires if marker then Idle(tx) else TxVerdict(net, ms, tx) == Accepted
    ensures MidGood(s, ApplyTx(ms, tx), fees + tx.fee.Val(), gone + InputIds(tx.inputs))
  {
    if marker {
      MarkerStep(s, ms, fees, gone, tx);
      assert gone + InputIds(tx.inputs) == gone;
    } else {
      TxStep(net, s, ms, fees, gone, tx);
    }
  }

  lemma {:induction false} TxsGood(net: Network, s: State, txs: seq<Tx>, ids: seq<OutputID>, k: nat)
    requires StateGood(s, ids) && IdleMarkers(net, s, txs)
    requires k <= |txs| && TxsVerdict(net, s, txs, k) == Accepted
    ensures MidGood(s, MidAt(s, txs, k), SumFees(txs[..k]), SpentIds(ids, txs[..k]))
  {
    hide TxsVerdict, TxVerdict, ApplyTx, MidInv;
    if k == 0 {
      NewMidGood(s, ids);
    } else {
      LastAccepted(net, s, txs, k);
      TxsGood(net, s, txs, ids, k - 1);
      Prefix(s, ids, txs, k);
      LastGood(net, s, MidAt(s, txs, k - 1), SumFees(txs[..k - 1]), SpentIds(ids, txs[..k - 1]), txs[k - 1],
               IsMarker(net, s, txs, k - 1));
    }
  }

  predicate SafeNext(net: Network, s: State, txs: seq<Tx>, k: nat)
    requires k < |txs|
  {
    TxsVerdict(net, s, txs, k) == Accepted ==> TxsVerdict(net, s, txs, k + 1) != Panicked
  }

  lemma {:induction false} NextNoPanic(net: Network, s: State, txs: seq<Tx>, k: nat)
    requires StateGood(s, []) && IdleMarkers(net, s, txs) && k < |txs|
    requires Total(BookOf(Entries(s.leaves)).coins) < C.LIMIT
    ensures SafeNext(net, s, txs, k)
  {
    if TxsVerdict(net, s, txs, k) == Accepted {
      TxsGood(net, s, txs, [], k);
      TxNoPanic(net, s, MidAt(s, txs, k), SumFees(txs[..k]), SpentIds([], txs[..k]), txs[k]);
    }
  }

  lemma {:induction false} NeverPanics(net: Network, s: State, txs: seq<Tx>, k: nat)
    requires k <= |txs|
    requires forall i :: 0 <= i < |txs| ==> SafeNext(net, s, txs, i)
    ensures TxsVerdict(net, s, txs, k) != Panicked
  {
    if k > 0 {
      NeverPanics(net, s, txs, k - 1);
      assert SafeNext(net, s, txs, k - 1);
    }
  }

  lemma {:induction false} TxsNoPanic(net: Network, s: State, txs: seq<Tx>)
    requires StateGood(s, []) && IdleMarkers(net, s, txs)
    requires Total(BookOf(Entries(s.leaves)).coins) < C.LIMIT
    ensures TxsVerdict(net, s, txs, |txs|) != Panicked
  {
    forall i | 0 <= i < |txs| ensures SafeNext(net, s, txs, i) { NextNoPanic(net, s, txs, i); }
    NeverPanics(net, s, txs, |txs|);
  }

  lemma {:induction false} AcceptedProof(net: Network, ms: Mid, tx: Tx)
    requires Linked(ms) && TxVerdict(net, ms, tx) == Accepted
    ensures IsCanaryProof(tx) ==> ms.base.qdayHeight == 0 && !ms.proved
  {}

  /** The canary proofs of an accepted block: at most one, and none once the height is set. */
  lemma {:induction false} TxsProofs(net: Network, s: State, txs: seq<Tx>, k: nat)
    requires IdleMarkers(net, s, txs) && k <= |txs| && TxsVerdict(net, s, txs, k) == Accepted
    ensures MidAt(s, txs, k).base == s
    ensures CanaryProofs(txs[..k]) <= 1 && (MidAt(s, txs, k).proved <==> CanaryProofs(txs[..k]) == 1)
    ensures CanaryProofs(txs[..k]) == 1 ==> s.qdayHeight == 0
  {
    hide TxsVerdict, TxVerdict, ApplyTx;
    if k > 0 {
      LastAccepted(net, s, txs, k);
      TxsProofs(net, s, txs, k - 1);
      Prefix(s, [], txs, k);
      ApplyTxFrame(MidAt(s, txs, k - 1), txs[k - 1]);
      if !IsMarker(net, s, txs, k - 1) { AcceptedProof(net, MidAt(s, txs, k - 1), txs[k - 1]); }
    }
  }

  lemma {:induction false} SpendInputsFrame(ms: Mid, tx: Tx, k: nat)
    requires Linked(ms) && k <= |tx.inputs|
    ensures SpendInputs(ms, tx, k).base == ms.base && SpendInputs(ms, tx, k).proved == ms.proved
  {
    if k > 0 { SpendInputsFrame(ms, tx, k - 1); }
  }

  lemma {:induction false} CreateOutputsFrame(ms: Mid, tx: Tx, k: nat)
    requires Linked(ms) && k <= |tx.outputs|
    ensures CreateOutputs(ms, tx, k).base == ms.base && CreateOutputs(ms, tx, k).proved == ms.proved
  {
    if k > 0 { CreateOutputsFrame(ms, tx, k - 1); }
  }

  lemma {:induction false} ApplyTxFrame(ms: Mid, tx: Tx)
    requires Linked(ms)
    ensures ApplyTx(ms, tx).base == ms.base && ApplyTx(ms, tx).proved == (ms.proved || IsCanaryProof(tx))
  {
    var m := ms.(proved := ms.proved || IsCanaryProof(tx));
    SpendInputsFrame(m, tx, |tx.inputs|);
    CreateOutputsFrame(SpendInputs(m, tx, |tx.inputs|), tx, |tx.outputs|);
  }

  // ---- The end of a block ----

  function Depth(id: BlockID): nat {
    if id.NoBlock? then 0 else 1 + Depth(id.parent)
  }

  /** No miner output names a block later than s. */
  ghost predicate MinersPast(s: State)
    requires UniqueIds(Entries(s.leaves))
  {
    forall id :: id in Ids(Entries(s.leaves)) && id.MinerOutput? ==> Depth(id.block) <= Depth(s.id)
  }

  /** All that may have been issued up to height h. */
  function Emission(net: Network, h: nat): nat {
    var paid := if h <= net.params.miningBlocks then h else net.params.miningBlocks;
    net.params.premine.Val() + net.params.reward.Val() * paid
  }

  lemma {:induction false} EmissionStep(net: Network, s: State)
    ensures Emission(net, Child(s)) == Emission(net, s.head.height) + BlockReward(net, s).Val()
  {
    var r, h := net.params.reward.Val(), s.head.height;
    assert r * (h + 1) == r * h + r;
  }

  lemma {:induction false} EmissionFits(net: Network, h: nat)
    ensures Emission(net, h) < C.LIMIT
  {
    C.MulMonotone(if h <= net.params.miningBlocks then h else net.params.miningBlocks, net.params.miningBlocks,
                  net.params.reward.Val());
  }

  lemma {:induction false} PatchedIndexed(ls: seq<Hash>, sces: seq<Diff>)
    requires Indexed(ls)
    ensures Indexed(Patched(ls, sces))
  {
    if sces != [] { PatchedIndexed(ls, sces[..|sces| - 1]); }
  }

  lemma {:induction false} AppendedIndexed(n: nat, sces: seq<Diff>)
    ensures forall i :: 0 <= i < |Appended(n, sces)| ==>
              Appended(n, sces)[i].LeafHash? && Appended(n, sces)[i].index == n + i
  {
    if sces != [] { AppendedIndexed(n, sces[..|sces| - 1]); }
  }

  lemma {:induction false} BlockIndexed(net: Network, s: State, b: Block)
    requires Indexed(s.leaves)
    ensures Indexed(ApplyBlock(net, s, b).leaves)
  {
    var ms := FinalMid(net, s, b);
    PatchedIndexed(s.leaves, ms.sces);
    AppendedIndexed(|s.leaves|, ms.sces);
  }

  /** Adding a payout under a fresh ID keeps the plain ledger in order. */
  lemma {:induction false} PayoutKeeps(book: Book, ids: seq<OutputID>, id: OutputID, coin: Coin)
    requires BookInv(book) && Gone(ids, book) && id !in book.used && id.MinerOutput?
    ensures var b' := Utxo.Create(book, id, coin);
            BookInv(b') && Gone(ids, b') && Total(b'.coins) == Total(book.coins) + coin.Value()
  {
    TotalAdd(book.coins, id, coin);
  }

  lemma {:induction false} PayoutFresh(s: State, ms: Mid, fees: nat, ids: seq<OutputID>, b: Block)
    requires UniqueIds(Entries(s.leaves)) && MidGood(s, ms, fees, ids) && MinersPast(s) && b.parent == s.id
    ensures MinerOutput(BlockIdOf(b), 0) !in Ids(MidEntries(ms))
    ensures forall id :: id in Ids(MidEntries(ms)) && id.MinerOutput? ==> Depth(id.block) <= Depth(s.id)
  {
    var id := MinerOutput(BlockIdOf(b), 0);
    assert Depth(BlockIdOf(b)) == 1 + Depth(s.id);
  }

  /** The new state's leaves are those of the block's last entry and one that is not an output. */
  lemma {:induction false} FinalEntries(net: Network, s: State, b: Block)
    requires UniqueIds(MidEntries(FinalMid(net, s, b))) && FinalMid(net, s, b).base == s
    ensures UniqueIds(Entries(ApplyBlock(net, s, b).leaves))
    ensures BookOf(Entries(ApplyBlock(net, s, b).leaves)) == BookOf(MidEntries(FinalMid(net, s, b)))
  {
    var es := MidEntries(FinalMid(net, s, b));
    assert Entries(ApplyBlock(net, s, b).leaves) == es + [Other];
    Append(es, Other);
  }

  /** What holds of the state after any chain of valid blocks that has spent the outputs ids. */
  ghost predicate ChainGood(net: Network, s: State, ids: seq<OutputID>) {
    StateGood(s, ids) && MinersPast(s) && Total(BookOf(Entries(s.leaves)).coins) <= Emission(net, s.head.height)
  }

  lemma {:induction false} AcceptedTxs(net: Network, s: State, b: Block, ids: seq<OutputID>)
    requires StateGood(s, ids) && BlockVerdict(net, s, b) == Accepted
    ensures MidGood(s, MidAt(s, b.txs, |b.txs|), SumFees(b.txs), SpentIds(ids, b.txs))
  {
    MarkersIdle(net, s, b);
    TxsGood(net, s, b.txs, ids, |b.txs|);
    assert b.txs[..|b.txs|] == b.txs;
  }

  lemma {:induction false} FinalIsCreate(net: Network, s: State, b: Block)
    requires |b.payouts| == 1 && MidAt(s, b.txs, |b.txs|).base == s
    ensures FinalMid(net, s, b)
         == Ledger.Create(MidAt(s, b.txs, |b.txs|), MinerOutput(BlockIdOf(b), 0), b.payouts[0],
                          Child(s) + net.maturityDelay)
  {
    assert b.txs[..|b.txs|] == b.txs;
    var ms := MidAt(s, b.txs, |b.txs|);
    assert CreatePayouts(net, ms, b, 0) == ms;
  }

  /** The plain ledger after a block: its transactions', and then the miner's output. */
  lemma {:induction false} BlockBook(net: Network, s: State, b: Block, fees: nat, gone: seq<OutputID>)
    requires UniqueIds(Entries(s.leaves)) && MidGood(s, MidAt(s, b.txs, |b.txs|), fees, gone)
    requires |b.payouts| == 1 && MinerOutput(BlockIdOf(b), 0) !in Ids(MidEntries(MidAt(s, b.txs, |b.txs|)))
    ensures var ms, id := MidAt(s, b.txs, |b.txs|), MinerOutput(BlockIdOf(b), 0);
            && UniqueIds(Entries(ApplyBlock(net, s, b).leaves))
            && BookOf(Entries(ApplyBlock(net, s, b).leaves))
               == Utxo.Create(BookOf(MidEntries(ms)), id, Coin(b.payouts[0], Child(s) + net.maturityDelay))
  {
    CreateStep(MidAt(s, b.txs, |b.txs|), MinerOutput(BlockIdOf(b), 0), b.payouts[0], Child(s) + net.maturityDelay);
    FinalIsCreate(net, s, b);
    FinalEntries(net, s, b);
  }

  lemma {:induction false} MinersKept(s: State, ms: Mid, b: Block, s': State, coin: Coin)
    requires UniqueIds(MidEntries(ms)) && UniqueIds(Entries(s'.leaves)) && b.parent == s.id && s'.id == BlockIdOf(b)
    requires forall id :: id in Ids(MidEntries(ms)) && id.MinerOutput? ==> Depth(id.block) <= Depth(s.id)
    requires BookOf(Entries(s'.leaves)) == Utxo.Create(BookOf(MidEntries(ms)), MinerOutput(BlockIdOf(b), 0), coin)
    ensures MinersPast(s')
  {
    assert Ids(Entries(s'.leaves)) == BookOf(Entries(s'.leaves)).used
        == Ids(MidEntries(ms)) + {MinerOutput(BlockIdOf(b), 0)};
    assert Depth(s'.id) == 1 + Depth(s.id);
  }

  lemma {:induction false} BlockKeeps(net: Network, s: State, b: Block, fees: nat, gone: seq<OutputID>)
    requires UniqueIds(Entries(s.leaves)) && Indexed(s.leaves) && MinersPast(s) && b.parent == s.id
    requires MidGood(s, MidAt(s, b.txs, |b.txs|), fees, gone) && |b.payouts| == 1
    requires |ApplyBlock(net, s, b).leaves| < MAX_LEAVES
    ensures var s' := ApplyBlock(net, s, b);
            && StateGood(s', gone) && MinersPast(s')
            && Total(BookOf(Entries(s'.leaves)).coins) + fees
            <= Total(BookOf(Entries(s.leaves)).coins) + b.payouts[0].value.Val()
  {
    var ms, id := MidAt(s, b.txs, |b.txs|), MinerOutput(BlockIdOf(b), 0);
    var coin := Coin(b.payouts[0], Child(s) + net.maturityDelay);
    PayoutFresh(s, ms, fees, gone, b);
    BlockBook(net, s, b, fees, gone);
    MinersKept(s, ms, b, ApplyBlock(net, s, b), coin);
    BlockIndexed(net, s, b);
    PayoutKeeps(BookOf(MidEntries(ms)), gone, id, coin);
  }

  lemma {:induction false} AcceptedFacts(net: Network, s: State, b: Block)
    requires BlockVerdict(net, s, b) == Accepted
    ensures b.parent == s.id && |b.payouts| == 1
    ensures b.payouts[0].value.Val() == BlockReward(net, s).Val() + SumFees(b.txs)
  {}

  /** An accepted block keeps all of it, and its inputs join the outputs that are gone. */
  lemma {:induction false} BlockStep(net: Network, s: State, b: Block, ids: seq<OutputID>)
    requires ChainGood(net, s, ids) && BlockVerdict(net, s, b) == Accepted
    requires |ApplyBlock(net, s, b).leaves| < MAX_LEAVES
    ensures ChainGood(net, ApplyBlock(net, s, b), SpentIds(ids, b.txs))
  {
    AcceptedFacts(net, s, b);
    AcceptedTxs(net, s, b, ids);
    BlockKeeps(net, s, b, SumFees(b.txs), SpentIds(ids, b.txs));
    EmissionStep(net, s);
  }

  // ---- Chains ----

  /** The state after the genesis block, whose only output is the premine. */
  function Genesis(net: Network, owner: Address, id: BlockID, head: H.Head): State {
    State(id, head, 0, [LeafHash(Siacoin(PremineOutput, Output(net.params.premine, owner), 0), 0, false),
                        LeafHash(ChainIndex(0, id), 1, false)])
  }

  function StateAt(net: Network, s: State, blocks: seq<Block>, k: nat): State
    requires k <= |blocks|
  {
    if k == 0 then s else ApplyBlock(net, StateAt(net, s, blocks, k - 1), blocks[k - 1])
  }

  /** Every block is accepted by the state before it, and the number of leaves stays below 2^63. */
  ghost predicate ValidChain(net: Network, s: State, blocks: seq<Block>) {
    forall k :: 0 <= k < |blocks| ==> ValidNext(net, s, blocks, k)
  }

  ghost predicate ValidNext(net: Network, s: State, blocks: seq<Block>, k: nat)
    requires k < |blocks|
  {
    && BlockVerdict(net, StateAt(net, s, blocks, k), blocks[k]) == Accepted
    && |StateAt(net, s, blocks, k + 1).leaves| < MAX_LEAVES
  }

  /** The outputs spent along a chain, in order. */
  function ChainSpends(blocks: seq<Block>): seq<OutputID> {
    if blocks == [] then [] else SpentIds(ChainSpends(blocks[..|blocks| - 1]), blocks[|blocks| - 1].txs)
  }

  function Unspent(s: State): map<OutputID, Coin> {
    Live(Entries(s.leaves))
  }

  lemma {:induction false} GenesisUnspent(net: Network, owner: Address, id: BlockID, head: H.Head)
    ensures var es := Entries(Genesis(net, owner, id, head).leaves);
            var premine := Coin(Output(net.params.premine, owner), 0);
            UniqueIds(es) && BookOf(es) == Book(map[PremineOutput := premine], {PremineOutput})
  {
    var e := Entry(PremineOutput, Coin(Output(net.params.premine, owner), 0), true);
    Append([], e);
    Append([] + [e], Other);
    assert Entries(Genesis(net, owner, id, head).leaves) == [] + [e] + [Other];
  }

  lemma {:induction false} GenesisGood(net: Network, owner: Address, id: BlockID, head: H.Head)
    requires head.height == 0
    ensures ChainGood(net, Genesis(net, owner, id, head), [])
  {
    GenesisUnspent(net, owner, id, head);
    TotalAdd(map[], PremineOutput, Coin(Output(net.params.premine, owner), 0));
  }

  lemma {:induction false} ChainPrefix(net: Network, s: State, blocks: seq<Block>, k: nat)
    requires 0 < k <= |blocks|
    ensures StateAt(net, s, blocks, k) == ApplyBlock(net, StateAt(net, s, blocks, k - 1), blocks[k - 1])
    ensures StateAt(net, s, blocks, k).head.height == StateAt(net, s, blocks, k - 1).head.height + 1
    ensures ChainSpends(blocks[..k]) == SpentIds(ChainSpends(blocks[..k - 1]), blocks[k - 1].txs)
    ensures ChainProofs(blocks[..k]) == ChainProofs(blocks[..k - 1]) + CanaryProofs(blocks[k - 1].txs)
  {
    assert blocks[..k][..k - 1] == blocks[..k - 1];
  }

  lemma {:induction false} NextKeeps(net: Network, s: State, blocks: seq<Block>, k: nat, ids: seq<OutputID>)
    requires k < |blocks| && ValidNext(net, s, blocks, k) && ChainGood(net, StateAt(net, s, blocks, k), ids)
    ensures ChainGood(net, StateAt(net, s, blocks, k + 1), SpentIds(ids, blocks[k].txs))
  {
    ChainPrefix(net, s, blocks, k + 1);
    BlockStep(net, StateAt(net, s, blocks, k), blocks[k], ids);
  }

  lemma {:induction false} ChainKeeps(net: Network, s: State, blocks: seq<Block>, k: nat)
    requires ValidChain(net, s, blocks) && ChainGood(net, s, []) && k <= |blocks|
    ensures ChainGood(net, StateAt(net, s, blocks, k), ChainSpends(blocks[..k]))
    ensures StateAt(net, s, blocks, k).head.height == s.head.height + k
  {
    if k > 0 {
      ChainKeeps(net, s, blocks, k - 1);
      ChainPrefix(net, s, blocks, k);
      NextKeeps(net, s, blocks, k - 1, ChainSpends(blocks[..k - 1]));
    }
  }

  /** A state that some chain of valid blocks leads to from genesis. */
  ghost predicate Reached(net: Network, owner: Address, id: BlockID, head: H.Head, blocks: seq<Block>, s: State) {
    && head.height == 0 && ValidChain(net, Genesis(net, owner, id, head), blocks)
    && s == StateAt(net, Genesis(net, owner, id, head), blocks, |blocks|)
  }

  lemma {:induction false} ReachedGood(net: Network, owner: Address, id: BlockID, head: H.Head, blocks: seq<Block>,
                                       s: State)
    requires Reached(net, owner, id, head, blocks, s)
    ensures ChainGood(net, s, ChainSpends(blocks)) && s.head.height == |blocks|
  {
    GenesisGood(net, owner, id, head);
    ChainKeeps(net, Genesis(net, owner, id, head), blocks, |blocks|);
    assert blocks[..|blocks|] == blocks;
  }

  /** On every chain of valid blocks, the unspent outputs are worth at most the premine and the rewards
      so far, which fit in a Currency. */
  lemma {:induction false} SupplyBound(net: Network, owner: Address, id: BlockID, head: H.Head, blocks: seq<Block>,
                                       s: State)
    requires Reached(net, owner, id, head, blocks, s)
    ensures UniqueIds(Entries(s.leaves)) && Total(Unspent(s)) <= Emission(net, |blocks|) < C.LIMIT
  {
    ReachedGood(net, owner, id, head, blocks, s);
    EmissionFits(net, |blocks|);
  }

  lemma {:induction false} BlockNoPanic(net: Network, s: State, b: Block, ids: seq<OutputID>)
    requires StateGood(s, ids) && Total(Unspent(s)) < C.LIMIT
    ensures BlockVerdict(net, s, b) != Panicked
  {
    if MarkersOk(net, s, b) {
      MarkersIdle(net, s, b);
      TxsNoPanic(net, s, b.txs);
    }
  }

  /** So no sum over inputs, fees or payouts overflows, whatever block is validated on top. */
  lemma {:induction false} NoOverflow(net: Network, owner: Address, id: BlockID, head: H.Head, blocks: seq<Block>,
                                      s: State, b: Block)
    requires Reached(net, owner, id, head, blocks, s)
    ensures BlockVerdict(net, s, b) != Panicked
  {
    ReachedGood(net, owner, id, head, blocks, s);
    SupplyBound(net, owner, id, head, blocks, s);
    BlockNoPanic(net, s, b, ChainSpends(blocks));
  }

  /** On every chain of valid blocks no output is spent twice, in one block or in two. */
  lemma {:induction false} SingleSpend(net: Network, owner: Address, id: BlockID, head: H.Head, blocks: seq<Block>,
                                       s: State)
    requires Reached(net, owner, id, head, blocks, s)
    ensures NoDup(ChainSpends(blocks))
  {
    ReachedGood(net, owner, id, head, blocks, s);
  }

  // ---- Activation ----

  function ChainProofs(blocks: seq<Block>): nat {
    if blocks == [] then 0 else ChainProofs(blocks[..|blocks| - 1]) + CanaryProofs(blocks[|blocks| - 1].txs)
  }

  lemma {:induction false} PayoutsFrame(net: Network, ms: Mid, b: Block, k: nat)
    requires Linked(ms) && k <= |b.payouts|
    ensures CreatePayouts(net, ms, b, k).proved == ms.proved
  {
    if k > 0 { PayoutsFrame(net, ms, b, k - 1); }
  }

  lemma {:induction false} BlockActivation(net: Network, s: State, b: Block)
    requires BlockVerdict(net, s, b) == Accepted
    ensures CanaryProofs(b.txs) == 0 || (CanaryProofs(b.txs) == 1 && s.qdayHeight == 0)
    ensures ApplyBlock(net, s, b).qdayHeight ==
            if CanaryProofs(b.txs) == 1 then Child(s) + net.params.activationDelay else s.qdayHeight
  {
    MarkersIdle(net, s, b);
    TxsProofs(net, s, b.txs, |b.txs|);
    assert b.txs[..|b.txs|] == b.txs;
    PayoutsFrame(net, ApplyTxs(NewMid(s), b.txs), b, |b.payouts|);
  }

  /** Block k has no canary proof and keeps the activation height, or it has one, and sets it from 0. */
  predicate ActivationStep(net: Network, s: State, blocks: seq<Block>, k: nat)
    requires k < |blocks|
  {
    var now, next, proofs := StateAt(net, s, blocks, k), StateAt(net, s, blocks, k + 1), CanaryProofs(blocks[k].txs);
    if proofs == 0 then next.qdayHeight == now.qdayHeight
    else proofs == 1 && now.qdayHeight == 0 && next.qdayHeight == Child(now) + net.params.activationDelay
  }

  lemma {:induction false} ActivationSteps(net: Network, s: State, blocks: seq<Block>)
    requires ValidChain(net, s, blocks)
    ensures forall k :: 0 <= k < |blocks| ==> ActivationStep(net, s, blocks, k)
  {
    forall k | 0 <= k < |blocks|
      ensures ActivationStep(net, s, blocks, k)
    {
      assert ValidNext(net, s, blocks, k);
      BlockActivation(net, StateAt(net, s, blocks, k), blocks[k]);
      ChainPrefix(net, s, blocks, k + 1);
    }
  }

  lemma {:induction false} ActivationAt(net: Network, s: State, blocks: seq<Block>, k: nat)
    requires forall i :: 0 <= i < |blocks| ==> ActivationStep(net, s, blocks, i)
    requires s.qdayHeight == 0 && k <= |blocks|
    ensures StateAt(net, s, blocks, k).head.height == s.head.height + k
    ensures ChainProofs(blocks[..k]) <= 1
    ensures StateAt(net, s, blocks, k).qdayHeight == 0 <==> ChainProofs(blocks[..k]) == 0
  {
    if k > 0 {
      ActivationAt(net, s, blocks, k - 1);
      assert ActivationStep(net, s, blocks, k - 1);
      ChainPrefix(net, s, blocks, k);
    }
  }

  lemma {:induction false} ActivationFrom(net: Network, s: State, blocks: seq<Block>, k: nat, j: nat)
    requires forall i :: 0 <= i < |blocks| ==> ActivationStep(net, s, blocks, i)
    requires s.qdayHeight == 0 && j < k <= |blocks| && CanaryProofs(blocks[j].txs) > 0
    ensures StateAt(net, s, blocks, k).qdayHeight == s.head.height + j + 1 + net.params.activationDelay
  {
    ActivationAt(net, s, blocks, k - 1);
    assert ActivationStep(net, s, blocks, k - 1);
    if j < k - 1 { ActivationFrom(net, s, blocks, k - 1, j); }
  }

  /** On every chain at most one canary proof is accepted.  The activation height is 0 exactly until
      then, and afterwards it stays the proof block's height and the delay. */
  lemma {:induction false} ActivatesOnce(net: Network, s: State, blocks: seq<Block>, k: nat, j: nat)
    requires ValidChain(net, s, blocks) && s.qdayHeight == 0 && j < k <= |blocks|
    ensures ChainProofs(blocks[..k]) <= 1
    ensures StateAt(net, s, blocks, k).qdayHeight == 0 <==> ChainProofs(blocks[..k]) == 0
    ensures CanaryProofs(blocks[j].txs) > 0 ==>
              StateAt(net, s, blocks, k).qdayHeight == s.head.height + j + 1 + net.params.activationDelay
  {
    ActivationSteps(net, s, blocks);
    ActivationAt(net, s, blocks, k);
    if CanaryProofs(blocks[j].txs) > 0 { ActivationFrom(net, s, blocks, k, j); }
  }
}
