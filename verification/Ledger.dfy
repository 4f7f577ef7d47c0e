/** The rules of the ledger: when a transaction and a block are valid, and what they do to the state.
    The accumulator is represented by the list of leaf hashes it commits. */
module Ledger {
  import opened Types
  import opened Utxo
  import opened Forest
  import opened Bits
  import C = Currency
  import D = Decay
  import E = Envelope
  import H = Difficulty
  import P = Policy
  import S = Swap

  // ---- Transactions, blocks and states ----

  datatype SiacoinElement = SiacoinElement(leafIndex: nat, proof: seq<Hash>, id: OutputID, output: Output,
                                           maturity: nat)

  datatype Input = Input(parent: SiacoinElement, policy: Types.Policy, sigs: seq<seq<byte>>, preimages: seq<seq<byte>>)

  datatype Tx = Tx(inputs: seq<Input>, outputs: seq<Output>, data: seq<byte>, fee: C.Currency)

  datatype Block = Block(parent: BlockID, nonce: nat, timestamp: int, payouts: seq<Output>,
                         height: nat, commitment: nat, txs: seq<Tx>)

  datatype State = State(id: BlockID, head: H.Head, qdayHeight: nat, leaves: seq<Hash>)

  /** Cryptography and encodings, as functions of their arguments. */
  datatype Env = Env(crypto: P.Crypto,
                     median: seq<int> -> int,
                     canary: seq<byte> -> bool,
                     defended: (TxID, nat, nat) -> bool,
                     inputSize: Input -> nat,
                     meets: (BlockID, nat) -> bool,
                     commitment: (State, Address, seq<Tx>) -> nat)

  datatype Network = Network(params: D.Params, chain: H.Chain, maturityDelay: nat, env: Env)

  datatype Verdict = Accepted | Rejected | Panicked

  const MAX_WEIGHT: nat := 2_000_000

  function InputIds(inputs: seq<Input>): seq<OutputID> {
    seq(|inputs|, i requires 0 <= i < |inputs| => inputs[i].parent.id)
  }

  function TxIdOf(tx: Tx): TxID {
    TxID(InputIds(tx.inputs), tx.outputs, tx.data, tx.fee)
  }

  predicate Creates(tx: Tx, id: OutputID) {
    id.TxOutput? && id.tx == TxIdOf(tx) && id.index < |tx.outputs|
  }

  predicate Unconfirmed(i: Input) {
    i.parent.leafIndex == UNASSIGNED
  }

  function BlockIdOf(b: Block): BlockID {
    BlockID(b.parent, b.nonce, b.timestamp, b.commitment)
  }

  function Child(s: State): nat {
    s.head.height + 1
  }

  /** The timestamps of the newest n blocks of the chain that ends in id, newest first. */
  function Recent(id: BlockID, n: nat): seq<int> {
    if n == 0 || id.NoBlock? then [] else [id.timestamp] + Recent(id.parent, n - 1)
  }

  function Median(net: Network, s: State): int {
    net.env.median(Recent(s.id, 11))
  }

  predicate V1Active(net: Network, height: nat) {
    net.params.v1Height != 0 && height >= net.params.v1Height
  }

  function BlockReward(net: Network, s: State): C.Currency {
    if Child(s) > net.params.miningBlocks then C.ZERO else net.params.reward
  }

  function InputsWeight(net: Network, inputs: seq<Input>): nat {
    if inputs == [] then 0
    else
      var last := inputs[|inputs| - 1];
      InputsWeight(net, inputs[..|inputs| - 1]) + net.env.inputSize(last.(parent := last.parent.(proof := [])))
  }

  function Weight(net: Network, tx: Tx): nat {
    InputsWeight(net, tx.inputs) + 48 * |tx.outputs| + |tx.data|
  }

  function BlockWeight(net: Network, txs: seq<Tx>): nat {
    if txs == [] then 0 else BlockWeight(net, txs[..|txs| - 1]) + Weight(net, txs[|txs| - 1])
  }

  // ---- The state within a block ----

  /** What a block does to one output. */
  datatype Diff = Diff(element: SiacoinElement, created: bool, spent: bool)

  datatype Mid = Mid(base: State, elements: map<OutputID, nat>, sces: seq<Diff>, spends: map<OutputID, TxID>,
                     proved: bool)

  /** The index of every recorded element is one of sces. */
  predicate Linked(ms: Mid) {
    forall id :: id in ms.elements ==> ms.elements[id] < |ms.sces|
  }

  function NewMid(s: State): Mid {
    Mid(s, map[], [], map[], false)
  }

  predicate CreatedHere(ms: Mid, id: OutputID)
    requires Linked(ms)
  {
    id in ms.elements && ms.sces[ms.elements[id]].created
  }

  /** recordSiacoinElement and the assignment through the pointer it returns. */
  function Put(ms: Mid, id: OutputID, d: Diff): (r: Mid)
    requires Linked(ms)
    ensures Linked(r)
  {
    if id in ms.elements then ms.(sces := ms.sces[ms.elements[id] := d])
    else ms.(elements := ms.elements[id := |ms.sces|], sces := ms.sces + [d])
  }

  function Create(ms: Mid, id: OutputID, output: Output, maturity: nat): (r: Mid)
    requires Linked(ms)
    ensures Linked(r)
  {
    var spent := id in ms.elements && ms.sces[ms.elements[id]].spent;
    Put(ms, id, Diff(SiacoinElement(UNASSIGNED, [], id, output, maturity), true, spent))
  }

  function Spend(ms: Mid, e: SiacoinElement, txid: TxID): (r: Mid)
    requires Linked(ms)
    ensures Linked(r)
  {
    Put(ms, e.id, Diff(e, CreatedHere(ms, e.id), true)).(spends := ms.spends[e.id := txid])
  }

  function SpendInputs(ms: Mid, tx: Tx, k: nat): (r: Mid)
    requires Linked(ms) && k <= |tx.inputs|
    ensures Linked(r)
  {
    if k == 0 then ms else Spend(SpendInputs(ms, tx, k - 1), tx.inputs[k - 1].parent, TxIdOf(tx))
  }

  function CreateOutputs(ms: Mid, tx: Tx, k: nat): (r: Mid)
    requires Linked(ms) && k <= |tx.outputs|
    ensures Linked(r)
  {
    if k == 0
    then ms
    else Create(CreateOutputs(ms, tx, k - 1), TxOutput(TxIdOf(tx), k - 1), tx.outputs[k - 1], Child(ms.base))
  }

  predicate IsCanaryProof(tx: Tx) {
    var e := E.Parsed(tx.data);
    e.Ok? && e.value.kind == E.CANARY_PROOF
  }

  /** ApplyV2Transaction. */
  function ApplyTx(ms: Mid, tx: Tx): (r: Mid)
    requires Linked(ms)
    ensures Linked(r)
  {
    CreateOutputs(SpendInputs(ms.(proved := ms.proved || IsCanaryProof(tx)), tx, |tx.inputs|), tx, |tx.outputs|)
  }

  function ApplyTxs(ms: Mid, txs: seq<Tx>): (r: Mid)
    requires Linked(ms)
    ensures Linked(r)
  {
    if txs == [] then ms else ApplyTx(ApplyTxs(ms, txs[..|txs| - 1]), txs[|txs| - 1])
  }

  function CreatePayouts(net: Network, ms: Mid, b: Block, k: nat): (r: Mid)
    requires Linked(ms) && k <= |b.payouts|
    ensures Linked(r)
  {
    if k == 0 then ms
    else
      var before, id := CreatePayouts(net, ms, b, k - 1), MinerOutput(BlockIdOf(b), k - 1);
      Create(before, id, b.payouts[k - 1], Child(ms.base) + net.maturityDelay)
  }

  function FinalMid(net: Network, s: State, b: Block): (r: Mid)
    ensures Linked(r)
  {
    CreatePayouts(net, ApplyTxs(NewMid(s), b.txs), b, |b.payouts|)
  }

  // ---- The effect of a block ----

  function Leaf(d: Diff, index: nat): Hash {
    LeafHash(Siacoin(d.element.id, d.element.output, d.element.maturity), index, d.spent)
  }

  /** The earlier leaves, with those that the block touches replaced. */
  function Patched(ls: seq<Hash>, sces: seq<Diff>): (r: seq<Hash>)
    ensures |r| == |ls|
  {
    if sces == [] then ls
    else
      var r, d := Patched(ls, sces[..|sces| - 1]), sces[|sces| - 1];
      if d.element.leafIndex < |ls| && d.element.leafIndex != UNASSIGNED
      then r[d.element.leafIndex := Leaf(d, d.element.leafIndex)]
      else r
  }

  /** The leaves that the block adds behind n earlier ones. */
  function Appended(n: nat, sces: seq<Diff>): seq<Hash> {
    if sces == [] then []
    else
      var r, d := Appended(n, sces[..|sces| - 1]), sces[|sces| - 1];
      if d.element.leafIndex == UNASSIGNED then r + [Leaf(d, n + |r|)] else r
  }

  function NewLeaves(ls: seq<Hash>, sces: seq<Diff>): seq<Hash> {
    Patched(ls, sces) + Appended(|ls|, sces)
  }

  /** ApplyBlock. */
  function ApplyBlock(net: Network, s: State, b: Block): State {
    var ms := FinalMid(net, s, b);
    var leaves := NewLeaves(s.leaves, ms.sces);
    State(BlockIdOf(b),
          H.NextHead(net.chain, s.head, b.timestamp),
          if s.qdayHeight == 0 && ms.proved then Child(s) + net.params.activationDelay else s.qdayHeight,
          leaves + [LeafHash(ChainIndex(Child(s), BlockIdOf(b)), |leaves|, false)])
  }

  // ---- Validity of a transaction ----

  /** The intent covered by DEFEND work: everything but the envelope's nonce. */
  function WorkIntent(tx: Tx): TxID {
    TxIdOf(if |tx.data| >= 14 then tx.(data := tx.data[..6] + [0, 0, 0, 0, 0, 0, 0, 0] + tx.data[14..]) else tx)
  }

  predicate CanaryOk(net: Network, ms: Mid, e: E.Envelope, tx: Tx) {
    && ms.base.qdayHeight == 0 && !ms.proved && e.nonce == 0 && net.env.canary(e.secret)
    && tx.fee.Val() >= net.params.proofFee.Val()
  }

  predicate PolicyAllowed(net: Network, s: State, p: Types.Policy) {
    S.IsNative(p) || (V1Active(net, Child(s)) && S.IsSwapSpend(p))
  }

  /** validateQdayTransaction. */
  predicate QdayOk(net: Network, ms: Mid, tx: Tx) {
    && E.Parsed(tx.data).Ok?
    && var e := E.Parsed(tx.data).value;
    && (e.kind == E.TRANSFER || (e.kind == E.CANARY_PROOF && CanaryOk(net, ms, e, tx)))
    && 0 < |tx.inputs| <= 128 && |tx.outputs| <= 128 && (tx.outputs == [] ==> e.kind == E.CANARY_PROOF) && e.keys == []
    && (forall i :: 0 <= i < |tx.inputs| ==> PolicyAllowed(net, ms.base, tx.inputs[i].policy))
    && (D.Active(ms.base.qdayHeight, Child(ms.base)) ==>
          net.env.defended(WorkIntent(tx), e.nonce, net.params.defendBits))
  }

  /** An output created earlier in the block, named with its value, address and birth height. */
  predicate Ephemeral(ms: Mid, e: SiacoinElement)
    requires Linked(ms)
  {
    && CreatedHere(ms, e.id)
    && var d := ms.sces[ms.elements[e.id]].element;
    d.id == e.id && d.output == e.output && d.maturity == e.maturity
  }

  /** The unspent leaf of e is in the accumulator, and its proof leads to it. */
  predicate Present(s: State, e: SiacoinElement) {
    && e.leafIndex < |s.leaves|
    && s.leaves[e.leafIndex] == LeafHash(Siacoin(e.id, e.output, e.maturity), e.leafIndex, false)
    && e.proof == FullProof(s.leaves, e.leafIndex)
  }

  /** The output exists and nothing in the block has spent it. */
  predicate Available(ms: Mid, e: SiacoinElement)
    requires Linked(ms)
  {
    && e.id !in ms.spends
    && if e.leafIndex == UNASSIGNED then Ephemeral(ms, e) else Present(ms.base, e)
  }

  predicate PolicyOk(net: Network, s: State, tx: Tx, i: Input) {
    && P.AddressOf(i.policy) == i.parent.output.address
    && P.Satisfied(P.Context(net.env.crypto, s.head.height, Median(net, s), TxIdOf(tx)), i.policy, i.sigs, i.preimages)
  }

  predicate InputOk(net: Network, ms: Mid, tx: Tx, i: Input)
    requires Linked(ms)
  {
    Available(ms, i.parent) && i.parent.maturity <= Child(ms.base) && PolicyOk(net, ms.base, tx, i)
  }

  predicate DistinctInputs(inputs: seq<Input>) {
    forall i, j :: 0 <= i < j < |inputs| ==> inputs[i].parent.id != inputs[j].parent.id
  }

  predicate InputsOk(net: Network, ms: Mid, tx: Tx)
    requires Linked(ms)
  {
    DistinctInputs(tx.inputs) && forall i :: 0 <= i < |tx.inputs| ==> InputOk(net, ms, tx, tx.inputs[i])
  }

  /** The spendable value of an input in the child block. */
  function InputValue(net: Network, s: State, i: Input): C.Currency
  {
    D.QdayValue(net.params, s.qdayHeight, i.parent.output.value, i.parent.maturity, Child(s))
  }

  function InputSum(net: Network, s: State, inputs: seq<Input>, k: nat): nat
    requires k <= |inputs|
  {
    if k == 0 then 0 else InputSum(net, s, inputs, k - 1) + InputValue(net, s, inputs[k - 1]).Val()
  }

  /** validateV2Siacoins: adding up the inputs panics when the sum does not fit in a Currency. */
  function SiacoinsVerdict(net: Network, ms: Mid, tx: Tx): Verdict
    requires Linked(ms)
  {
    if !InputsOk(net, ms, tx) then Rejected
    else if InputSum(net, ms.base, tx.inputs, |tx.inputs|) >= C.LIMIT then Panicked
    else if exists i :: 0 <= i < |tx.outputs| && tx.outputs[i].value.Val() == 0 then Rejected
    else
      var needed := SumOutputs(tx.outputs, |tx.outputs|) + tx.fee.Val();
      if InputSum(net, ms.base, tx.inputs, |tx.inputs|) < needed then Rejected else Accepted
  }

  /** ValidateV2Transaction. */
  function TxVerdict(net: Network, ms: Mid, tx: Tx): Verdict
    requires Linked(ms)
  {
    if !QdayOk(net, ms, tx) || SumOutputs(tx.outputs, |tx.outputs|) + tx.fee.Val() >= C.LIMIT
       || Weight(net, tx) == 0 || Weight(net, tx) > MAX_WEIGHT then Rejected
    else SiacoinsVerdict(net, ms, tx)
  }

  // ---- Validity of a block ----

  predicate CoinbaseMarkerOk(tx: Tx, b: Block)
    requires |b.payouts| == 1
  {
    && E.Parsed(tx.data).Ok?
    && var e := E.Parsed(tx.data).value;
    && e.kind == E.COINBASE && |e.keys| == 1 && P.AddressOf(S.NativePolicy(e.keys[0])) == b.payouts[0].address
    && tx.inputs == [] && tx.outputs == [] && tx.fee == C.ZERO
  }

  predicate WorkMarkerOk(tx: Tx) {
    && E.Parsed(tx.data).Ok?
    && var e := E.Parsed(tx.data).value;
    && e.kind == E.MINING_WORK && e.keys == [] && e.secret == E.NO_SECRET
    && tx.inputs == [] && tx.outputs == [] && tx.fee == C.ZERO
  }

  /** validateQdayBlockMarkers. */
  predicate MarkersOk(net: Network, s: State, b: Block) {
    && |b.txs| > 0 && |b.payouts| == 1 && CoinbaseMarkerOk(b.txs[0], b)
    && (V1Active(net, Child(s)) ==> |b.txs| >= 2 && WorkMarkerOk(b.txs[|b.txs| - 1]))
  }

  function SumFees(txs: seq<Tx>): nat {
    if txs == [] then 0 else SumFees(txs[..|txs| - 1]) + txs[|txs| - 1].fee.Val()
  }

  /** validateMinerPayouts. */
  predicate PayoutsOk(net: Network, s: State, b: Block) {
    && |b.payouts| == 1 && BlockReward(net, s).Val() + SumFees(b.txs) < C.LIMIT
    && b.payouts[0].value.Val() == BlockReward(net, s).Val() + SumFees(b.txs)
  }

  /** ValidateHeader. */
  predicate HeaderOk(net: Network, s: State, b: Block) {
    && b.parent == s.id && b.timestamp >= Median(net, s)
    && net.env.meets(BlockIdOf(b), s.head.difficulty)
  }

  /** ValidateOrphan. */
  predicate OrphanOk(net: Network, s: State, b: Block) {
    BlockWeight(net, b.txs) <= MAX_WEIGHT && PayoutsOk(net, s, b) && HeaderOk(net, s, b) && b.height == Child(s)
  }

  predicate CommitmentOk(net: Network, s: State, b: Block)
    requires |b.payouts| == 1
  {
    b.commitment == net.env.commitment(s, b.payouts[0].address, b.txs)
  }

  /** The first transaction and, once V1 is active, the last are markers, applied without validation. */
  predicate IsMarker(net: Network, s: State, txs: seq<Tx>, i: nat) {
    i == 0 || (V1Active(net, Child(s)) && i + 1 == |txs|)
  }

  /** The first k transactions, each validated after those before it have been applied. */
  function TxsVerdict(net: Network, s: State, txs: seq<Tx>, k: nat): Verdict
    requires k <= |txs|
  {
    if k == 0 then Accepted
    else if TxsVerdict(net, s, txs, k - 1) != Accepted then TxsVerdict(net, s, txs, k - 1)
    else if IsMarker(net, s, txs, k - 1) then Accepted
    else TxVerdict(net, ApplyTxs(NewMid(s), txs[..k - 1]), txs[k - 1])
  }

  /** ValidateBlock. */
  function BlockVerdict(net: Network, s: State, b: Block): Verdict
  {
    if !MarkersOk(net, s, b) || !OrphanOk(net, s, b) || !CommitmentOk(net, s, b) then Rejected
    else TxsVerdict(net, s, b.txs, |b.txs|)
  }
}
