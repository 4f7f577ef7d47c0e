/** The validator as it runs: a MidState that is updated in place, loops over the transactions and their
    inputs, and the accumulator's stored roots. */
module MidState {
  import opened Types
  import opened Utxo
  import opened Bits
  import opened Ledger
  import C = Currency
  import D = Decay
  import E = Envelope
  import P = Policy
  import S = Swap
  import A = Accumulator
  import L = Elements

  class MidState {
    const base: State
    var elements: map<OutputID, nat>
    var sces: seq<Diff>
    var spends: map<OutputID, TxID>
    var proved: bool

    constructor (s: State)
      ensures base == s && Value() == NewMid(s)
    {
      base := s;
      elements, sces, spends, proved := map[], [], map[], false;
    }

    function Value(): Mid
      reads this
    {
      Mid(base, elements, sces, spends, proved)
    }

    /** Finds or adds the diff of an output. */
    method RecordElement(id: OutputID) returns (i: nat)
      requires Linked(Value())
      modifies this`elements, this`sces
      ensures id in elements && elements[id] == i && Linked(Value())
      ensures elements == if id in old(elements) then old(elements) else old(elements)[id := |old(sces)|]
      ensures |sces| == if id in old(elements) then |old(sces)| else |old(sces)| + 1
      ensures id in old(elements) ==> sces == old(sces)
      ensures id !in old(elements) ==> sces[..|old(sces)|] == old(sces) && !sces[i].created && !sces[i].spent
    {
      if id in elements {
        return elements[id];
      }
      i := |sces|;
      sces := sces + [Diff(SiacoinElement(0, [], id, Output(C.ZERO, OtherAddress(0)), 0), false, false)];
      elements := elements[id := i];
    }

    method CreateElement(id: OutputID, output: Output, maturity: nat)
      requires Linked(Value())
      modifies this`elements, this`sces
      ensures Value() == Ledger.Create(old(Value()), id, output, maturity)
    {
      var i := RecordElement(id);
      sces := sces[i := Diff(SiacoinElement(UNASSIGNED, [], id, output, maturity), true, sces[i].spent)];
    }

    method SpendElement(e: SiacoinElement, txid: TxID)
      requires Linked(Value())
      modifies this`elements, this`sces, this`spends
      ensures Value() == Ledger.Spend(old(Value()), e, txid)
    {
      var i := RecordElement(e.id);
      sces := sces[i := Diff(e, sces[i].created, true)];
      spends := spends[e.id := txid];
    }

    method SpendParents(tx: Tx, txid: TxID)
      requires Linked(Value()) && txid == TxIdOf(tx)
      modifies this`elements, this`sces, this`spends
      ensures Value() == SpendInputs(old(Value()), tx, |tx.inputs|)
    {
      for i := 0 to |tx.inputs|
        invariant Value() == SpendInputs(old(Value()), tx, i)
      {
        SpendElement(tx.inputs[i].parent, txid);
      }
    }

    method CreateChildren(tx: Tx, txid: TxID)
      requires Linked(Value()) && txid == TxIdOf(tx)
      modifies this`elements, this`sces
      ensures Value() == CreateOutputs(old(Value()), tx, |tx.outputs|)
    {
      for i := 0 to |tx.outputs|
        invariant Value() == CreateOutputs(old(Value()), tx, i)
      {
        CreateElement(TxOutput(txid, i), tx.outputs[i], Child(base));
      }
    }

    /** ApplyV2Transaction. */
    method ApplyTransaction(tx: Tx)
      requires Linked(Value())
      modifies this`elements, this`sces, this`spends, this`proved
      ensures Value() == ApplyTx(old(Value()), tx)
    {
      var e := E.Parse(tx.data);
      if e.Ok? && e.value.kind == E.CANARY_PROOF {
        proved := true;
      }
      var txid := TxIdOf(tx);
      SpendParents(tx, txid);
      CreateChildren(tx, txid);
    }
  }

  // ---- Transactions ----

  /** validateV2CurrencyOverflow: the outputs and the fee add up within 128 bits. */
  method CheckOverflow(tx: Tx) returns (overflow: bool)
    ensures overflow <==> SumOutputs(tx.outputs, |tx.outputs|) + tx.fee.Val() >= C.LIMIT
  {
    var sum := C.ZERO;
    overflow := false;
    for i := 0 to |tx.outputs|
      invariant overflow <==> SumOutputs(tx.outputs, i) >= C.LIMIT
      invariant !overflow ==> sum.Val() == SumOutputs(tx.outputs, i)
    {
      if !overflow {
        var r := C.AddWithOverflow(sum, tx.outputs[i].value);
        sum, overflow := r.0, r.1;
      }
    }
    if !overflow {
      overflow := C.AddWithOverflow(sum, tx.fee).1;
    }
  }

  /** The accumulator check of one input, against the stored roots. */
  method CheckPresent(s: State, e: SiacoinElement, acc: A.ElementAccumulator) returns (found: bool)
    requires acc.Holds(s.leaves)
    ensures found <==> Present(s, e)
  {
    var se := new L.StateElement(e.leafIndex, e.proof);
    found := acc.ContainsLeaf(L.ElementLeaf(se, Siacoin(e.id, e.output, e.maturity), false), s.leaves);
  }

  /** validateEphemeralSiacoinElement. */
  method CheckEphemeral(ms: MidState, e: SiacoinElement) returns (ok: bool)
    requires Linked(ms.Value())
    ensures ok <==> Ephemeral(ms.Value(), e)
  {
    if e.id !in ms.elements {
      return false;
    }
    var d := ms.sces[ms.elements[e.id]];
    ok := d.created && d.element.id == e.id && d.element.output == e.output && d.element.maturity == e.maturity;
  }

  method CheckAvailable(ms: MidState, e: SiacoinElement, acc: A.ElementAccumulator) returns (ok: bool)
    requires Linked(ms.Value()) && acc.Holds(ms.base.leaves)
    ensures ok <==> Available(ms.Value(), e)
  {
    if e.id in ms.spends {
      return false;
    }
    if e.leafIndex == UNASSIGNED {
      ok := CheckEphemeral(ms, e);
    } else {
      ok := CheckPresent(ms.base, e, acc);
    }
  }

  method CheckPolicy(net: Network, s: State, tx: Tx, i: Input) returns (ok: bool)
    ensures ok <==> PolicyOk(net, s, tx, i)
  {
    if P.AddressOf(i.policy) != i.parent.output.address {
      return false;
    }
    ok := P.Verify(P.Context(net.env.crypto, s.head.height, Median(net, s), TxIdOf(tx)), i.policy, i.sigs, i.preimages);
  }

  method CheckInput(net: Network, ms: MidState, tx: Tx, i: Input, acc: A.ElementAccumulator) returns (ok: bool)
    requires Linked(ms.Value()) && acc.Holds(ms.base.leaves)
    ensures ok <==> InputOk(net, ms.Value(), tx, i)
  {
    ok := CheckAvailable(ms, i.parent, acc);
    if !ok || i.parent.maturity > Child(ms.base) {
      return false;
    }
    ok := CheckPolicy(net, ms.base, tx, i);
  }

  /** spent maps the IDs of the first i inputs, all different, to their positions. */
  predicate Seen(spent: map<OutputID, nat>, inputs: seq<Input>, i: nat)
    requires i <= |inputs|
  {
    && (forall id :: id in spent ==> spent[id] < i && inputs[spent[id]].parent.id == id)
    && (forall j :: 0 <= j < i ==> inputs[j].parent.id in spent && spent[inputs[j].parent.id] == j)
  }

  /** The first loop of validateV2Siacoins, with its map of the inputs seen. */
  method CheckInputs(net: Network, ms: MidState, tx: Tx, acc: A.ElementAccumulator) returns (ok: bool)
    requires Linked(ms.Value()) && acc.Holds(ms.base.leaves)
    ensures ok <==> InputsOk(net, ms.Value(), tx)
  {
    hide InputOk;
    var spent: map<OutputID, nat> := map[];
    for i := 0 to |tx.inputs|
      invariant Seen(spent, tx.inputs, i)
      invariant forall j :: 0 <= j < i ==> InputOk(net, ms.Value(), tx, tx.inputs[j])
    {
      var id := tx.inputs[i].parent.id;
      if id in spent {
        return false;
      }
      var good := CheckInput(net, ms, tx, tx.inputs[i], acc);
      if !good {
        return false;
      }
      spent := spent[id := i];
    }
    ok := true;
  }

  /** validateV2Siacoins. */
  method ValidateSiacoins(net: Network, ms: MidState, tx: Tx, acc: A.ElementAccumulator) returns (v: Verdict)
    requires Linked(ms.Value()) && acc.Holds(ms.base.leaves)
    requires SumOutputs(tx.outputs, |tx.outputs|) + tx.fee.Val() < C.LIMIT
    ensures v == SiacoinsVerdict(net, ms.Value(), tx)
  {
    var ok := CheckInputs(net, ms, tx, acc);
    if !ok {
      return Rejected;
    }
    var panicked, inputSum := AddInputs(net, ms.base, tx.inputs);
    if panicked {
      return Panicked;
    }
    var zero, outputSum := AddOutputs(tx.outputs);
    if zero || C.Cmp(inputSum, C.Add(outputSum, tx.fee)) < 0 {
      return Rejected;
    }
    v := Accepted;
  }

  lemma {:induction false} SumGrows(net: Network, s: State, inputs: seq<Input>, i: nat, j: nat)
    requires i <= j <= |inputs|
    ensures InputSum(net, s, inputs, i) <= InputSum(net, s, inputs, j)
    decreases j
  {
    if i < j { SumGrows(net, s, inputs, i, j - 1); }
  }

  method AddInputs(net: Network, s: State, inputs: seq<Input>) returns (panicked: bool, sum: C.Currency)
    ensures panicked <==> InputSum(net, s, inputs, |inputs|) >= C.LIMIT
    ensures !panicked ==> sum.Val() == InputSum(net, s, inputs, |inputs|)
  {
    hide InputValue;
    sum := C.ZERO;
    for i := 0 to |inputs|
      invariant sum.Val() == InputSum(net, s, inputs, i)
    {
      SumGrows(net, s, inputs, i + 1, |inputs|);
      if C.AddWithOverflow(sum, InputValue(net, s, inputs[i])).1 {
        return true, sum;
      }
      sum := C.Add(sum, InputValue(net, s, inputs[i]));
    }
    panicked := false;
  }

  lemma {:induction false} OutputsGrow(outs: seq<Output>, i: nat, j: nat)
    requires i <= j <= |outs|
    ensures SumOutputs(outs, i) <= SumOutputs(outs, j)
    decreases j
  {
    if i < j { OutputsGrow(outs, i, j - 1); }
  }

  method AddOutputs(outs: seq<Output>) returns (zero: bool, sum: C.Currency)
    requires SumOutputs(outs, |outs|) < C.LIMIT
    ensures zero <==> exists i :: 0 <= i < |outs| && outs[i].value.Val() == 0
    ensures !zero ==> sum.Val() == SumOutputs(outs, |outs|)
  {
    sum := C.ZERO;
    for i := 0 to |outs|
      invariant sum.Val() == SumOutputs(outs, i)
      invariant forall j :: 0 <= j < i ==> outs[j].value.Val() != 0
    {
      if outs[i].value == C.ZERO {
        return true, sum;
      }
      OutputsGrow(outs, i + 1, |outs|);
      sum := C.Add(sum, outs[i].value);
    }
    zero := false;
  }

  method CheckPolicies(net: Network, s: State, inputs: seq<Input>) returns (ok: bool)
    ensures ok <==> forall i :: 0 <= i < |inputs| ==> PolicyAllowed(net, s, inputs[i].policy)
  {
    for i := 0 to |inputs|
      invariant forall j :: 0 <= j < i ==> PolicyAllowed(net, s, inputs[j].policy)
    {
      if S.IsNative(inputs[i].policy) {
        continue;
      }
      if !V1Active(net, Child(s)) || !S.IsSwapSpend(inputs[i].policy) {
        return false;
      }
    }
    ok := true;
  }

  /** validateQdayTransaction. */
  method CheckQday(net: Network, ms: MidState, tx: Tx) returns (ok: bool)
    ensures ok <==> QdayOk(net, ms.Value(), tx)
  {
    var r := E.Parse(tx.data);
    if r.Err? || r.value.kind == E.COINBASE || r.value.kind == E.MINING_WORK {
      return false;
    }
    var e := r.value;
    E.EncodeParse(tx.data);
    if e.kind == E.CANARY_PROOF {
      if ms.base.qdayHeight != 0 || ms.proved || e.nonce != 0 || !net.env.canary(e.secret)
         || C.Cmp(tx.fee, net.params.proofFee) < 0 {
        return false;
      }
    }
    if |tx.inputs| == 0 || |tx.inputs| > 128 || (|tx.outputs| == 0 && e.kind != E.CANARY_PROOF)
       || |tx.outputs| > 128 || |e.keys| != 0 {
      return false;
    }
    ok := CheckPolicies(net, ms.base, tx.inputs);
    if ok && D.Active(ms.base.qdayHeight, Child(ms.base))
       && !net.env.defended(WorkIntent(tx), e.nonce, net.params.defendBits) {
      return false;
    }
  }

  /** ValidateV2Transaction. */
  method ValidateTransaction(net: Network, ms: MidState, tx: Tx, acc: A.ElementAccumulator) returns (v: Verdict)
    requires Linked(ms.Value()) && acc.Holds(ms.base.leaves)
    ensures v == TxVerdict(net, ms.Value(), tx)
  {
    var ok := CheckQday(net, ms, tx);
    var overflow := CheckOverflow(tx);
    if !ok || overflow || Weight(net, tx) == 0 || Weight(net, tx) > MAX_WEIGHT {
      return Rejected;
    }
    v := ValidateSiacoins(net, ms, tx, acc);
  }

  // ---- Blocks ----

  /** validateMinerPayouts. */
  method CheckPayouts(net: Network, s: State, b: Block) returns (ok: bool)
    ensures ok <==> PayoutsOk(net, s, b)
  {
    var expected, overflow := BlockReward(net, s), false;
    for i := 0 to |b.txs|
      invariant expected.Val() == BlockReward(net, s).Val() + SumFees(b.txs[..i])
    {
      FeesGrow(b.txs, i);
      var r := C.AddWithOverflow(expected, b.txs[i].fee);
      if r.1 {
        return false;
      }
      expected := r.0;
    }
    assert b.txs[..|b.txs|] == b.txs;
    ok := |b.payouts| == 1 && b.payouts[0].value == expected;
    if |b.payouts| == 1 && b.payouts[0].value.Val() == expected.Val() { C.ValUnique(b.payouts[0].value, expected); }
  }

  lemma {:induction false} FeesGrow(txs: seq<Tx>, i: nat)
    requires i < |txs|
    ensures SumFees(txs[..i + 1]) == SumFees(txs[..i]) + txs[i].fee.Val() && SumFees(txs[..i + 1]) <= SumFees(txs)
    decreases |txs|
  {
    assert txs[..i + 1][..i] == txs[..i];
    if i + 1 < |txs| {
      FeesGrow(txs[..|txs| - 1], i);
      assert txs[..|txs| - 1][..i] == txs[..i] && txs[..|txs| - 1][..i + 1] == txs[..i + 1];
    } else {
      assert txs[..i + 1] == txs;
    }
  }

  /** ValidateOrphan. */
  method CheckOrphan(net: Network, s: State, b: Block) returns (ok: bool)
    ensures ok <==> OrphanOk(net, s, b)
  {
    var weight := 0;
    for i := 0 to |b.txs|
      invariant weight == BlockWeight(net, b.txs[..i])
    {
      assert b.txs[..i + 1][..i] == b.txs[..i];
      weight := weight + Weight(net, b.txs[i]);
    }
    assert b.txs[..|b.txs|] == b.txs;
    if weight > MAX_WEIGHT {
      return false;
    }
    ok := CheckPayouts(net, s, b);
    ok := ok && HeaderOk(net, s, b) && b.height == Child(s);
  }

  lemma {:induction false} NextVerdict(net: Network, s: State, txs: seq<Tx>, i: nat)
    requires i < |txs| && TxsVerdict(net, s, txs, i) == Accepted
    ensures TxsVerdict(net, s, txs, i + 1)
         == if IsMarker(net, s, txs, i) then Accepted else TxVerdict(net, ApplyTxs(NewMid(s), txs[..i]), txs[i])
    ensures ApplyTxs(NewMid(s), txs[..i + 1]) == ApplyTx(ApplyTxs(NewMid(s), txs[..i]), txs[i])
  {
    hide TxVerdict, ApplyTx;
    assert txs[..i + 1][..i] == txs[..i];
  }

  /** One transaction of ValidateBlock, validated in the state that those before it left. */
  method ValidateNext(net: Network, ms: MidState, txs: seq<Tx>, i: nat, acc: A.ElementAccumulator) returns (v: Verdict)
    requires i < |txs| && acc.Holds(ms.base.leaves)
    requires ms.Value() == ApplyTxs(NewMid(ms.base), txs[..i]) && TxsVerdict(net, ms.base, txs, i) == Accepted
    modifies ms`elements, ms`sces, ms`spends, ms`proved
    ensures v == TxsVerdict(net, ms.base, txs, i + 1)
    ensures v == Accepted ==> ms.Value() == ApplyTxs(NewMid(ms.base), txs[..i + 1])
  {
    NextVerdict(net, ms.base, txs, i);
    v := Accepted;
    if !IsMarker(net, ms.base, txs, i) {
      v := ValidateTransaction(net, ms, txs[i], acc);
      if v != Accepted {
        return;
      }
    }
    ms.ApplyTransaction(txs[i]);
  }

  method ValidateTransactions(net: Network, s: State, txs: seq<Tx>, acc: A.ElementAccumulator) returns (v: Verdict)
    requires acc.Holds(s.leaves)
    ensures v == TxsVerdict(net, s, txs, |txs|)
  {
    var ms := new MidState(s);
    v := Accepted;
    for i := 0 to |txs|
      invariant ms.base == s && ms.Value() == ApplyTxs(NewMid(s), txs[..i])
      invariant v == Accepted == TxsVerdict(net, s, txs, i)
    {
      v := ValidateNext(net, ms, txs, i, acc);
      if v != Accepted {
        VerdictStays(net, s, txs, i + 1, |txs|);
        return;
      }
    }
  }

  lemma {:induction false} VerdictStays(net: Network, s: State, txs: seq<Tx>, i: nat, j: nat)
    requires i <= j <= |txs| && TxsVerdict(net, s, txs, i) != Accepted
    ensures TxsVerdict(net, s, txs, j) == TxsVerdict(net, s, txs, i)
    decreases j
  {
    hide TxVerdict, ApplyTxs;
    if i < j { VerdictStays(net, s, txs, i, j - 1); }
  }

  /** ValidateBlock. */
  method ValidateBlock(net: Network, s: State, b: Block, acc: A.ElementAccumulator) returns (v: Verdict)
    requires acc.Holds(s.leaves)
    ensures v == BlockVerdict(net, s, b)
  {
    if !MarkersOk(net, s, b) {
      return Rejected;
    }
    var ok := CheckOrphan(net, s, b);
    if !ok || !CommitmentOk(net, s, b) {
      return Rejected;
    }
    v := ValidateTransactions(net, s, b.txs, acc);
  }
}
