/** Every input of a valid chain is exactly the output it names: the value and address that the creating
    transaction, block or genesis gave it, and the height from which it counts. */
module Provenance {
  import opened Types
  import opened Utxo
  import opened Ledger
  import opened Refinement
  import opened Safety
  import H = Difficulty

  /** What creates outputs: a transaction in a block of some height, a payout with its maturity, or genesis. */
  datatype Source =
    | Transaction(tx: TxID, height: nat)
    | Payout(block: BlockID, index: nat, output: Output, maturity: nat)
    | Premine(output: Output)

  type Made = set<Source>

  /** The coin is what the source that its ID names has made. */
  predicate Authentic(id: OutputID, coin: Coin, made: Made) {
    match id
    case TxOutput(tx, i) => i < |tx.outputs| && coin.output == tx.outputs[i] && Transaction(tx, coin.maturity) in made
    case MinerOutput(block, i) => Payout(block, i, coin.output, coin.maturity) in made
    case PremineOutput => Premine(coin.output) in made && coin.maturity == 0
  }

  ghost predicate Honest(b: Book, made: Made) {
    forall id :: id in b.coins ==> Authentic(id, b.coins[id], made)
  }

  lemma {:induction false} SpendHonest(b: Book, claims: Claims, made: Made)
    requires Honest(b, made)
    ensures Honest(SpendAll(b, claims), made)
  {
    if claims != [] { SpendHonest(b, claims[..|claims| - 1], made); }
  }

  lemma {:induction false} CreateHonest(b: Book, tx: TxID, n: nat, maturity: nat, made: Made)
    requires Honest(b, made) && n <= |tx.outputs| && Transaction(tx, maturity) in made
    ensures Honest(CreateAll(b, tx, n, maturity), made)
  {
    if n > 0 { CreateHonest(b, tx, n - 1, maturity, made); }
  }

  lemma {:induction false} TransactHonest(b: Book, claims: Claims, tx: TxID, maturity: nat, made: Made)
    requires Honest(b, made)
    ensures Honest(Transact(b, claims, tx, maturity), made + {Transaction(tx, maturity)})
  {
    SpendHonest(b, claims, made);
    CreateHonest(SpendAll(b, claims), tx, |tx.outputs|, maturity, made + {Transaction(tx, maturity)});
  }

  // ---- Blocks ----

  function MadeBy(made: Made, height: nat, txs: seq<Tx>): Made {
    if txs == [] then made else MadeBy(made, height, txs[..|txs| - 1]) + {Transaction(TxIdOf(txs[|txs| - 1]), height)}
  }

  /** The sources of a chain together with those of its next block. */
  function BlockMade(net: Network, made: Made, height: nat, b: Block): Made {
    MadeBy(made, height, b.txs)
      + set j | 0 <= j < |b.payouts| :: Payout(BlockIdOf(b), j, b.payouts[j], height + net.maturityDelay)
  }

  lemma {:induction false} PayoutHonest(net: Network, book: Book, made: Made, height: nat, b: Block)
    requires Honest(book, MadeBy(made, height, b.txs)) && |b.payouts| == 1
    ensures Honest(Utxo.Create(book, MinerOutput(BlockIdOf(b), 0), Coin(b.payouts[0], height + net.maturityDelay)),
                   BlockMade(net, made, height, b))
  {
    assert Payout(BlockIdOf(b), 0, b.payouts[0], height + net.maturityDelay) in BlockMade(net, made, height, b);
  }

  ghost predicate HonestMid(ms: Mid, made: Made) {
    UniqueIds(MidEntries(ms)) && Honest(BookOf(MidEntries(ms)), made)
  }

  lemma {:induction false} IdleHonest(ms: Mid, tx: Tx, made: Made, more: Made)
    requires MidInv(ms) && HonestMid(ms, made) && tx.inputs == [] && tx.outputs == [] && made <= more
    ensures HonestMid(ApplyTx(ms, tx), more)
  {
    ProvedIrrelevant(ms, ms.proved || IsCanaryProof(tx));
  }

  lemma {:induction false} TxHonest(net: Network, ms: Mid, tx: Tx, made: Made)
    requires MidInv(ms) && BookInv(BookOf(MidEntries(ms))) && HonestMid(ms, made)
    requires TxVerdict(net, ms, tx) == Accepted
    ensures HonestMid(ApplyTx(ms, tx), made + {Transaction(TxIdOf(tx), Child(ms.base))})
  {
    AcceptedInputs(net, ms, tx);
    ApplyTxStep(ms, tx);
    TransactHonest(BookOf(MidEntries(ms)), ClaimsOf(tx.inputs), TxIdOf(tx), Child(ms.base), made);
  }

  lemma {:induction false} LastHonest(net: Network, ms: Mid, tx: Tx, made: Made, marker: bool)
    requires MidInv(ms) && BookInv(BookOf(MidEntries(ms))) && HonestMid(ms, made)
    requires if marker then Idle(tx) else TxVerdict(net, ms, tx) == Accepted
    ensures HonestMid(ApplyTx(ms, tx), made + {Transaction(TxIdOf(tx), Child(ms.base))})
  {
    if marker { IdleHonest(ms, tx, made, made + {Transaction(TxIdOf(tx), Child(ms.base))}); }
    else { TxHonest(net, ms, tx, made); }
  }

  lemma {:induction false} MadePrefix(made: Made, height: nat, txs: seq<Tx>, k: nat)
    requires 0 < k <= |txs|
    ensures MadeBy(made, height, txs[..k])
         == MadeBy(made, height, txs[..k - 1]) + {Transaction(TxIdOf(txs[k - 1]), height)}
  {
    assert txs[..k][..k - 1] == txs[..k - 1];
  }

  lemma {:induction false} NewMidHonest(s: State, made: Made)
    requires UniqueIds(Entries(s.leaves)) && Honest(BookOf(Entries(s.leaves)), made)
    ensures HonestMid(NewMid(s), made)
  {
    assert NewLeaves(s.leaves, []) == s.leaves;
  }

  lemma {:induction false} Unique(s: State)
    requires StateGood(s, [])
    ensures UniqueIds(Entries(s.leaves))
  {}

  lemma {:induction false} NoneHonest(s: State, txs: seq<Tx>, made: Made)
    requires UniqueIds(Entries(s.leaves)) && Honest(BookOf(Entries(s.leaves)), made)
    ensures HonestMid(MidAt(s, txs, 0), MadeBy(made, Child(s), txs[..0]))
  {
    NewMidHonest(s, made);
  }

  lemma {:induction false} NextTxHonest(net: Network, s: State, txs: seq<Tx>, made: Made, k: nat)
    requires StateGood(s, []) && IdleMarkers(net, s, txs)
    requires 0 < k <= |txs| && TxsVerdict(net, s, txs, k) == Accepted
    requires HonestMid(MidAt(s, txs, k - 1), MadeBy(made, Child(s), txs[..k - 1]))
    ensures HonestMid(MidAt(s, txs, k), MadeBy(made, Child(s), txs[..k]))
  {
    LastAccepted(net, s, txs, k);
    TxsGood(net, s, txs, [], k - 1);
    Prefix(s, [], txs, k);
    MadePrefix(made, Child(s), txs, k);
    LastHonest(net, MidAt(s, txs, k - 1), txs[k - 1], MadeBy(made, Child(s), txs[..k - 1]),
               IsMarker(net, s, txs, k - 1));
  }

  lemma {:induction false} TxsHonest(net: Network, s: State, txs: seq<Tx>, made: Made, k: nat)
    requires StateGood(s, []) && IdleMarkers(net, s, txs) && Honest(BookOf(Entries(s.leaves)), made)
    requires k <= |txs| && TxsVerdict(net, s, txs, k) == Accepted
    ensures HonestMid(MidAt(s, txs, k), MadeBy(made, Child(s), txs[..k]))
  {
    hide HonestMid, MidAt, MadeBy, TxsVerdict, StateGood, IdleMarkers;
    if k == 0 {
      Unique(s);
      NoneHonest(s, txs, made);
    } else {
      LastAccepted(net, s, txs, k);
      TxsHonest(net, s, txs, made, k - 1);
      NextTxHonest(net, s, txs, made, k);
    }
  }

  lemma {:induction false} AcceptedBook(net: Network, s: State, b: Block)
    requires ChainGood(net, s, []) && BlockVerdict(net, s, b) == Accepted
    ensures |b.payouts| == 1 && UniqueIds(Entries(ApplyBlock(net, s, b).leaves))
    ensures BookOf(Entries(ApplyBlock(net, s, b).leaves))
         == Utxo.Create(BookOf(MidEntries(MidAt(s, b.txs, |b.txs|))), MinerOutput(BlockIdOf(b), 0),
                        Coin(b.payouts[0], Child(s) + net.maturityDelay))
  {
    AcceptedFacts(net, s, b);
    AcceptedTxs(net, s, b, []);
    PayoutFresh(s, MidAt(s, b.txs, |b.txs|), SumFees(b.txs), SpentIds([], b.txs), b);
    BlockBook(net, s, b, SumFees(b.txs), SpentIds([], b.txs));
  }

  lemma {:induction false} BlockHonest(net: Network, s: State, b: Block, made: Made)
    requires ChainGood(net, s, []) && Honest(BookOf(Entries(s.leaves)), made)
    requires BlockVerdict(net, s, b) == Accepted
    ensures UniqueIds(Entries(ApplyBlock(net, s, b).leaves))
    ensures Honest(BookOf(Entries(ApplyBlock(net, s, b).leaves)), BlockMade(net, made, Child(s), b))
  {
    hide Ledger.ApplyBlock, Ledger.BlockVerdict;
    AcceptedBook(net, s, b);
    AllHonest(net, s, b, made);
    PayoutHonest(net, BookOf(MidEntries(MidAt(s, b.txs, |b.txs|))), made, Child(s), b);
  }

  lemma {:induction false} AllHonest(net: Network, s: State, b: Block, made: Made)
    requires StateGood(s, []) && Honest(BookOf(Entries(s.leaves)), made)
    requires BlockVerdict(net, s, b) == Accepted
    ensures HonestMid(MidAt(s, b.txs, |b.txs|), MadeBy(made, Child(s), b.txs))
  {
    MarkersIdle(net, s, b);
    TxsHonest(net, s, b.txs, made, |b.txs|);
    assert b.txs[..|b.txs|] == b.txs;
  }

  // ---- Chains ----

  /** Every source of a chain that starts after height h. */
  function ChainMade(net: Network, first: Made, h: nat, blocks: seq<Block>): Made {
    if blocks == [] then first
    else BlockMade(net, ChainMade(net, first, h, blocks[..|blocks| - 1]), h + |blocks|, blocks[|blocks| - 1])
  }

  lemma {:induction false} MadeChainNext(net: Network, first: Made, h: nat, blocks: seq<Block>, k: nat, height: nat)
    requires k < |blocks| && height == h + k + 1
    ensures ChainMade(net, first, h, blocks[..k + 1])
         == BlockMade(net, ChainMade(net, first, h, blocks[..k]), height, blocks[k])
  {
    assert blocks[..k + 1][..k] == blocks[..k];
  }

  ghost predicate HonestState(net: Network, s: State, made: Made) {
    ChainGood(net, s, []) && Honest(BookOf(Entries(s.leaves)), made)
  }

  lemma {:induction false} GoneLess(net: Network, s: State, ids: seq<OutputID>)
    requires ChainGood(net, s, ids)
    ensures ChainGood(net, s, [])
  {}

  lemma {:induction false} NextHonest(net: Network, s: State, blocks: seq<Block>, k: nat, made: Made)
    requires k < |blocks| && ValidNext(net, s, blocks, k) && HonestState(net, StateAt(net, s, blocks, k), made)
    ensures HonestState(net, StateAt(net, s, blocks, k + 1),
                        BlockMade(net, made, Child(StateAt(net, s, blocks, k)), blocks[k]))
  {
    BlockHonest(net, StateAt(net, s, blocks, k), blocks[k], made);
    NextKeeps(net, s, blocks, k, []);
    GoneLess(net, StateAt(net, s, blocks, k + 1), SpentIds([], blocks[k].txs));
    ChainPrefix(net, s, blocks, k + 1);
  }

  lemma {:induction false} MadeNext(net: Network, first: Made, s: State, blocks: seq<Block>, k: nat)
    requires k < |blocks| && StateAt(net, s, blocks, k).head.height == s.head.height + k
    ensures ChainMade(net, first, s.head.height, blocks[..k + 1])
         == BlockMade(net, ChainMade(net, first, s.head.height, blocks[..k]),
                      Child(StateAt(net, s, blocks, k)), blocks[k])
    ensures StateAt(net, s, blocks, k + 1).head.height == s.head.height + (k + 1)
  {
    ChainPrefix(net, s, blocks, k + 1);
    MadeChainNext(net, first, s.head.height, blocks, k, Child(StateAt(net, s, blocks, k)));
  }

  ghost predicate HonestAt(net: Network, first: Made, s: State, blocks: seq<Block>, k: nat)
    requires k <= |blocks|
  {
    && StateAt(net, s, blocks, k).head.height == s.head.height + k
    && HonestState(net, StateAt(net, s, blocks, k), ChainMade(net, first, s.head.height, blocks[..k]))
  }

  ghost predicate HonestStep(net: Network, first: Made, s: State, blocks: seq<Block>, k: nat)
    requires k < |blocks|
  {
    HonestAt(net, first, s, blocks, k) ==> HonestAt(net, first, s, blocks, k + 1)
  }

  lemma {:induction false} ChainSteps(net: Network, first: Made, s: State, blocks: seq<Block>)
    requires ValidChain(net, s, blocks)
    ensures forall k :: 0 <= k < |blocks| ==> HonestStep(net, first, s, blocks, k)
  {
    forall k | 0 <= k < |blocks|
      ensures HonestStep(net, first, s, blocks, k)
    {
      assert ValidNext(net, s, blocks, k);
      if HonestAt(net, first, s, blocks, k) {
        MadeNext(net, first, s, blocks, k);
        NextHonest(net, s, blocks, k, ChainMade(net, first, s.head.height, blocks[..k]));
      }
    }
  }

  lemma {:induction false} ChainHonest(net: Network, first: Made, s: State, blocks: seq<Block>, k: nat)
    requires k <= |blocks| && HonestAt(net, first, s, blocks, 0)
    requires forall i :: 0 <= i < |blocks| ==> HonestStep(net, first, s, blocks, i)
    ensures HonestAt(net, first, s, blocks, k)
  {
    if k > 0 {
      ChainHonest(net, first, s, blocks, k - 1);
      assert HonestStep(net, first, s, blocks, k - 1);
    }
  }

  function GenesisMade(net: Network, owner: Address): Made {
    {Premine(Output(net.params.premine, owner))}
  }

  lemma {:induction false} GenesisHonest(net: Network, owner: Address, id: BlockID, head: H.Head)
    requires head.height == 0
    ensures HonestState(net, Genesis(net, owner, id, head), GenesisMade(net, owner))
  {
    GenesisGood(net, owner, id, head);
    GenesisUnspent(net, owner, id, head);
  }

  lemma {:induction false} ReachedHonest(net: Network, owner: Address, id: BlockID, head: H.Head, blocks: seq<Block>,
                                         s: State)
    requires Reached(net, owner, id, head, blocks, s)
    ensures HonestState(net, s, ChainMade(net, GenesisMade(net, owner), 0, blocks)) && s.head.height == |blocks|
  {
    var first := GenesisMade(net, owner);
    GenesisHonest(net, owner, id, head);
    assert blocks[..0] == [];
    ChainSteps(net, first, Genesis(net, owner, id, head), blocks);
    ChainHonest(net, first, Genesis(net, owner, id, head), blocks, |blocks|);
    assert blocks[..|blocks|] == blocks;
  }

  lemma {:induction false} AvailableAuthentic(ms: Mid, e: SiacoinElement, made: Made)
    requires MidInv(ms) && HonestMid(ms, made) && Available(ms, e)
    ensures Authentic(e.id, CoinOf(e), made)
  {
    AvailableIsLive(ms, e);
    LiveAt(MidEntries(ms), Position(ms, e));
  }

  lemma {:induction false} MidHonest(net: Network, s: State, txs: seq<Tx>, k: nat, made: Made)
    requires HonestState(net, s, made) && IdleMarkers(net, s, txs)
    requires k <= |txs| && TxsVerdict(net, s, txs, k) == Accepted
    ensures MidInv(MidAt(s, txs, k)) && HonestMid(MidAt(s, txs, k), MadeBy(made, Child(s), txs[..k]))
  {
    TxsHonest(net, s, txs, made, k);
    TxsGood(net, s, txs, [], k);
  }

  lemma {:induction false} InputsAuthentic(net: Network, s: State, txs: seq<Tx>, k: nat, e: SiacoinElement, made: Made)
    requires HonestState(net, s, made) && IdleMarkers(net, s, txs)
    requires k <= |txs| && TxsVerdict(net, s, txs, k) == Accepted && Available(MidAt(s, txs, k), e)
    ensures Authentic(e.id, CoinOf(e), MadeBy(made, Child(s), txs[..k]))
  {
    MidHonest(net, s, txs, k, made);
    AvailableAuthentic(MidAt(s, txs, k), e, MadeBy(made, Child(s), txs[..k]));
  }

  /** On every chain of valid blocks, an input carries exactly what the output it names was given: the value
      and address of the transaction's output and the height of its block, also within one block; the value,
      address and maturity of the payout of that block; or the premine. */
  lemma {:induction false} ExactInputs(net: Network, owner: Address, id: BlockID, head: H.Head, blocks: seq<Block>,
                                       s: State,
                                       txs: seq<Tx>, k: nat, e: SiacoinElement)
    requires Reached(net, owner, id, head, blocks, s) && IdleMarkers(net, s, txs) && k <= |txs|
    requires TxsVerdict(net, s, txs, k) == Accepted && Available(MidAt(s, txs, k), e)
    ensures var made := ChainMade(net, GenesisMade(net, owner), 0, blocks);
            Authentic(e.id, CoinOf(e), MadeBy(made, |blocks| + 1, txs[..k]))
  {
    ReachedHonest(net, owner, id, head, blocks, s);
    InputsAuthentic(net, s, txs, k, e, ChainMade(net, GenesisMade(net, owner), 0, blocks));
  }
}
