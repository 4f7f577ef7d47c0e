/** Proofs on inputs that are not confirmed yet: validation does not look at them, but they decide whether the
    leaf that the block adds for the output ends up with a proof that verifies. */
module EphemeralProofs {
  import opened Types
  import opened Utxo
  import opened Bits
  import opened Elements
  import opened Accumulator
  import opened Ledger
  import opened Refinement
  import opened BlockApply
  import S = Safety

  // ---- Validation ignores them ----

  predicate SameInput(x: Input, y: Input) {
    x == y || (Unconfirmed(x) && y == x.(parent := x.parent.(proof := y.parent.proof)))
  }

  /** The same transaction, but for the proofs on its unconfirmed inputs. */
  predicate SameTx(tx: Tx, ty: Tx) {
    && tx.outputs == ty.outputs && tx.data == ty.data && tx.fee == ty.fee && |tx.inputs| == |ty.inputs|
    && forall i :: 0 <= i < |tx.inputs| ==> SameInput(tx.inputs[i], ty.inputs[i])
  }

  lemma {:induction false} SameId(tx: Tx, ty: Tx)
    requires SameTx(tx, ty)
    ensures TxIdOf(tx) == TxIdOf(ty) && WorkIntent(tx) == WorkIntent(ty)
  {
    forall i | 0 <= i < |tx.inputs|
      ensures InputIds(tx.inputs)[i] == InputIds(ty.inputs)[i]
    {
      assert SameInput(tx.inputs[i], ty.inputs[i]);
    }
    assert InputIds(tx.inputs) == InputIds(ty.inputs);
  }

  lemma {:induction false} SameWeight(net: Network, xs: seq<Input>, ys: seq<Input>)
    requires |xs| == |ys| && forall i :: 0 <= i < |xs| ==> SameInput(xs[i], ys[i])
    ensures InputsWeight(net, xs) == InputsWeight(net, ys)
  {
    if xs != [] {
      var n := |xs| - 1;
      SameWeight(net, xs[..n], ys[..n]);
      assert SameInput(xs[n], ys[n]);
      assert xs[n].(parent := xs[n].parent.(proof := [])) == ys[n].(parent := ys[n].parent.(proof := []));
    }
  }

  lemma {:induction false} SameSum(net: Network, s: State, xs: seq<Input>, ys: seq<Input>, k: nat)
    requires |xs| == |ys| && k <= |xs| && forall i :: 0 <= i < |xs| ==> SameInput(xs[i], ys[i])
    ensures InputSum(net, s, xs, k) == InputSum(net, s, ys, k)
  {
    if k > 0 {
      SameSum(net, s, xs, ys, k - 1);
      assert SameInput(xs[k - 1], ys[k - 1]);
    }
  }

  lemma {:induction false} SameInputOk(net: Network, ms: Mid, tx: Tx, ty: Tx, i: nat)
    requires Linked(ms) && SameTx(tx, ty) && TxIdOf(tx) == TxIdOf(ty) && i < |tx.inputs|
    ensures InputOk(net, ms, tx, tx.inputs[i]) <==> InputOk(net, ms, ty, ty.inputs[i])
    ensures PolicyAllowed(net, ms.base, tx.inputs[i].policy) <==> PolicyAllowed(net, ms.base, ty.inputs[i].policy)
  {
    assert SameInput(tx.inputs[i], ty.inputs[i]);
  }

  lemma {:induction false} SameInputs(net: Network, ms: Mid, tx: Tx, ty: Tx)
    requires Linked(ms) && SameTx(tx, ty) && TxIdOf(tx) == TxIdOf(ty)
    ensures InputsOk(net, ms, tx) <==> InputsOk(net, ms, ty)
    ensures QdayOk(net, ms, tx) <==> QdayOk(net, ms, ty)
  {
    hide InputOk, PolicyAllowed;
    SameId(tx, ty);
    assert forall i :: 0 <= i < |tx.inputs| ==> SameInput(tx.inputs[i], ty.inputs[i]);
    assert DistinctInputs(tx.inputs) <==> DistinctInputs(ty.inputs);
    forall i | 0 <= i < |tx.inputs|
      ensures InputOk(net, ms, tx, tx.inputs[i]) <==> InputOk(net, ms, ty, ty.inputs[i])
      ensures PolicyAllowed(net, ms.base, tx.inputs[i].policy) <==> PolicyAllowed(net, ms.base, ty.inputs[i].policy)
    {
      SameInputOk(net, ms, tx, ty, i);
    }
  }

  lemma {:induction false} SameVerdict(net: Network, ms: Mid, tx: Tx, ty: Tx)
    requires Linked(ms) && SameTx(tx, ty)
    ensures TxVerdict(net, ms, tx) == TxVerdict(net, ms, ty)
  {
    hide InputsOk, QdayOk, InputSum, InputsWeight;
    SameId(tx, ty);
    SameInputs(net, ms, tx, ty);
    SameWeight(net, tx.inputs, ty.inputs);
    SameSum(net, ms.base, tx.inputs, ty.inputs, |tx.inputs|);
  }

  function WithProof(tx: Tx, k: nat, proof: seq<Hash>): Tx
    requires k < |tx.inputs|
  {
    var i := tx.inputs[k];
    tx.(inputs := tx.inputs[k := i.(parent := i.parent.(proof := proof))])
  }

  /** An accepted transaction stays accepted, under the same ID, with any proof on an unconfirmed input. */
  lemma {:induction false} AnyProofAccepted(net: Network, ms: Mid, tx: Tx, k: nat, proof: seq<Hash>)
    requires Linked(ms) && TxVerdict(net, ms, tx) == Accepted && k < |tx.inputs| && Unconfirmed(tx.inputs[k])
    ensures TxVerdict(net, ms, WithProof(tx, k, proof)) == Accepted && TxIdOf(WithProof(tx, k, proof)) == TxIdOf(tx)
  {
    hide TxVerdict;
    assert SameTx(tx, WithProof(tx, k, proof));
    SameId(tx, WithProof(tx, k, proof));
    SameVerdict(net, ms, tx, WithProof(tx, k, proof));
  }

  // ---- What they do to the added leaves ----

  predicate CleanTx(tx: Tx) {
    forall i :: 0 <= i < |tx.inputs| && Unconfirmed(tx.inputs[i]) ==> tx.inputs[i].parent.proof == []
  }

  /** No unconfirmed input carries a proof. */
  predicate CleanTxs(txs: seq<Tx>) {
    forall k :: 0 <= k < |txs| ==> CleanTx(txs[k])
  }

  predicate CleanDiff(d: Diff) {
    d.element.leafIndex == UNASSIGNED ==> d.element.proof == []
  }

  predicate AllClean(sces: seq<Diff>) {
    forall j :: 0 <= j < |sces| ==> CleanDiff(sces[j])
  }

  predicate Clean(ms: Mid) {
    AllClean(ms.sces)
  }

  /** What the block created and has not spent has no proof. */
  predicate Untouched(ms: Mid) {
    forall j :: 0 <= j < |ms.sces| && ms.sces[j].created && !ms.sces[j].spent ==> CleanDiff(ms.sces[j])
  }

  predicate CleanElement(e: SiacoinElement) {
    e.leafIndex == UNASSIGNED ==> e.proof == []
  }

  lemma {:induction false} SpendClean(ms: Mid, e: SiacoinElement, txid: TxID)
    requires MidInv(ms) && Available(ms, e) && Untouched(ms)
    ensures var m := Ledger.Spend(ms, e, txid); Untouched(m) && (Clean(m) <==> Clean(ms) && CleanElement(e))
  {
    AvailableIsLive(ms, e);
    var m := Ledger.Spend(ms, e, txid);
    if e.id in ms.elements {
      var j := ms.elements[e.id];
      assert DiffOk(ms, j);
      assert m.sces == ms.sces[j := Diff(e, true, true)] && CleanDiff(ms.sces[j]);
      assert Clean(m) ==> CleanDiff(m.sces[j]);
      assert forall i :: 0 <= i < |ms.sces| && i != j ==> m.sces[i] == ms.sces[i];
    } else {
      assert m.sces == ms.sces + [Diff(e, false, true)];
      assert Clean(m) ==> CleanDiff(m.sces[|ms.sces|]);
      assert forall i :: 0 <= i < |ms.sces| ==> m.sces[i] == ms.sces[i];
    }
  }

  predicate CleanInputs(inputs: seq<Input>, k: nat)
    requires k <= |inputs|
  {
    forall i :: 0 <= i < k ==> CleanElement(inputs[i].parent)
  }

  lemma {:induction false} SpendInputsClean(ms: Mid, tx: Tx, k: nat)
    requires Linked(ms) && MidInv(ms) && AllAvailable(ms, tx.inputs, 0) && Untouched(ms) && k <= |tx.inputs|
    ensures var m := SpendInputs(ms, tx, k); Untouched(m) && (Clean(m) <==> Clean(ms) && CleanInputs(tx.inputs, k))
  {
    hide MidInv, AllAvailable, Available, Untouched, Clean, Ledger.Spend;
    if k > 0 {
      SpendInputsClean(ms, tx, k - 1);
      SpendInputsStep(ms, tx, k - 1);
      NextAvailable(ms, tx, k - 1);
      SpendClean(SpendInputs(ms, tx, k - 1), tx.inputs[k - 1].parent, TxIdOf(tx));
    }
  }

  lemma {:induction false} CreateClean(ms: Mid, id: OutputID, output: Output, maturity: nat)
    requires Linked(ms) && Untouched(ms) && id !in ms.elements
    ensures var m := Ledger.Create(ms, id, output, maturity); Untouched(m) && (Clean(m) <==> Clean(ms))
  {
    var m := Ledger.Create(ms, id, output, maturity);
    assert forall i :: 0 <= i < |ms.sces| ==> m.sces[i] == ms.sces[i];
  }

  lemma {:induction false} CreateOutputsClean(ms: Mid, tx: Tx, k: nat)
    requires Linked(ms) && MidInv(ms) && Untouched(ms) && k <= |tx.outputs|
    requires forall j :: TxOutput(TxIdOf(tx), j) !in Ids(MidEntries(ms))
    ensures var m := CreateOutputs(ms, tx, k); Untouched(m) && (Clean(m) <==> Clean(ms))
  {
    hide MidInv, Untouched, Clean, Ledger.Create, MidEntries, BookOf, CreateAll;
    if k > 0 {
      CreateOutputsClean(ms, tx, k - 1);
      CreateOutputsStep(ms, tx, k - 1);
      FreshId(CreateOutputs(ms, tx, k - 1), TxOutput(TxIdOf(tx), k - 1));
      CreateClean(CreateOutputs(ms, tx, k - 1), TxOutput(TxIdOf(tx), k - 1), tx.outputs[k - 1], Child(ms.base));
    }
  }

  lemma {:induction false} FreshId(ms: Mid, id: OutputID)
    requires MidInv(ms) && id !in Ids(MidEntries(ms))
    ensures id !in ms.elements
  {
    if id in ms.elements { RecordedIsUsed(ms, id); }
  }

  lemma {:induction false} ProvedSame(ms: Mid, proved: bool, inputs: seq<Input>)
    requires MidInv(ms) && AllAvailable(ms, inputs, 0) && Untouched(ms)
    ensures var m := ms.(proved := proved);
            && MidInv(m) && MidEntries(m) == MidEntries(ms) && AllAvailable(m, inputs, 0)
            && Untouched(m) && (Clean(m) <==> Clean(ms))
  {
    ProvedIrrelevant(ms, proved);
  }

  lemma {:induction false} SpentClean(ms: Mid, tx: Tx)
    requires MidInv(ms) && AllAvailable(ms, tx.inputs, 0) && Untouched(ms)
    requires forall j :: TxOutput(TxIdOf(tx), j) !in Ids(MidEntries(ms))
    requires SpendAll(BookOf(MidEntries(ms)), ClaimsOf(tx.inputs)[..|tx.inputs|]).used == Ids(MidEntries(ms))
    ensures var m := CreateOutputs(SpendInputs(ms, tx, |tx.inputs|), tx, |tx.outputs|);
            Untouched(m) && (Clean(m) <==> Clean(ms) && CleanInputs(tx.inputs, |tx.inputs|))
  {
    hide Untouched, Clean, AllAvailable, MidEntries, SpendInputs, CreateOutputs, SpendAll;
    SpendInputsStep(ms, tx, |tx.inputs|);
    SpendInputsClean(ms, tx, |tx.inputs|);
    assert MidInv(SpendInputs(ms, tx, |tx.inputs|));
    CreateOutputsClean(SpendInputs(ms, tx, |tx.inputs|), tx, |tx.outputs|);
  }

  /** A transaction leaves the diffs without proofs exactly if they were and it brings none. */
  lemma {:induction false} ApplyClean(ms: Mid, tx: Tx)
    requires MidInv(ms) && BookInv(BookOf(MidEntries(ms))) && AllAvailable(ms, tx.inputs, 0) && tx.inputs != []
    requires Untouched(ms)
    ensures Untouched(ApplyTx(ms, tx)) && (Clean(ApplyTx(ms, tx)) <==> Clean(ms) && CleanTx(tx))
  {
    hide Untouched, Clean, AllAvailable, MidEntries, SpendInputs, CreateOutputs, SpendAll, IsCanaryProof;
    var m := ms.(proved := ms.proved || IsCanaryProof(tx));
    InputsSpendable(ms, tx.inputs);
    FreshOutputs(BookOf(MidEntries(ms)), tx);
    ProvedSame(ms, m.proved, tx.inputs);
    SpentClean(m, tx);
  }

  lemma {:induction false} LastClean(net: Network, s: State, ms: Mid, fees: nat, gone: seq<OutputID>, tx: Tx,
                                     marker: bool)
    requires UniqueIds(Entries(s.leaves)) && S.MidGood(s, ms, fees, gone) && Untouched(ms)
    requires if marker then S.Idle(tx) else TxVerdict(net, ms, tx) == Accepted
    ensures Untouched(ApplyTx(ms, tx)) && (Clean(ApplyTx(ms, tx)) <==> Clean(ms) && CleanTx(tx))
  {
    if !marker {
      S.AcceptedInputs(net, ms, tx);
      ApplyClean(ms, tx);
    }
  }

  lemma {:induction false} CleanPrefix(txs: seq<Tx>, k: nat)
    requires 0 < k <= |txs|
    ensures CleanTxs(txs[..k]) <==> CleanTxs(txs[..k - 1]) && CleanTx(txs[k - 1])
  {
    assert txs[..k] == txs[..k - 1] + [txs[k - 1]];
  }

  lemma {:induction false} TxsClean(net: Network, s: State, txs: seq<Tx>, ids: seq<OutputID>, k: nat)
    requires S.StateGood(s, ids) && S.IdleMarkers(net, s, txs)
    requires k <= |txs| && TxsVerdict(net, s, txs, k) == Accepted
    ensures Untouched(S.MidAt(s, txs, k)) && (Clean(S.MidAt(s, txs, k)) <==> CleanTxs(txs[..k]))
  {
    hide S.MidAt, TxsVerdict, S.StateGood, S.IdleMarkers, Untouched, Clean, CleanTxs;
    if k == 0 {
      NoneClean(s, txs);
    } else {
      S.LastAccepted(net, s, txs, k);
      TxsClean(net, s, txs, ids, k - 1);
      NextClean(net, s, txs, ids, k);
    }
  }

  lemma {:induction false} NoneClean(s: State, txs: seq<Tx>)
    ensures Untouched(S.MidAt(s, txs, 0)) && Clean(S.MidAt(s, txs, 0)) && CleanTxs(txs[..0])
  {}

  lemma {:induction false} NextClean(net: Network, s: State, txs: seq<Tx>, ids: seq<OutputID>, k: nat)
    requires S.StateGood(s, ids) && S.IdleMarkers(net, s, txs)
    requires 0 < k <= |txs| && TxsVerdict(net, s, txs, k) == Accepted && Untouched(S.MidAt(s, txs, k - 1))
    requires Clean(S.MidAt(s, txs, k - 1)) <==> CleanTxs(txs[..k - 1])
    ensures Untouched(S.MidAt(s, txs, k)) && (Clean(S.MidAt(s, txs, k)) <==> CleanTxs(txs[..k]))
  {
    hide ApplyTx, TxVerdict, Untouched, Clean, CleanTx, CleanTxs, S.MidGood;
    S.LastAccepted(net, s, txs, k);
    S.TxsGood(net, s, txs, ids, k - 1);
    S.Prefix(s, ids, txs, k);
    CleanPrefix(txs, k);
    LastClean(net, s, S.MidAt(s, txs, k - 1), SumFees(txs[..k - 1]), S.SpentIds(ids, txs[..k - 1]), txs[k - 1],
              IsMarker(net, s, txs, k - 1));
  }

  lemma {:induction false} PayoutClean(net: Network, s: State, b: Block, fees: nat, gone: seq<OutputID>)
    requires UniqueIds(Entries(s.leaves)) && S.MidGood(s, S.MidAt(s, b.txs, |b.txs|), fees, gone)
    requires S.MinersPast(s) && b.parent == s.id && |b.payouts| == 1 && Untouched(S.MidAt(s, b.txs, |b.txs|))
    ensures Clean(FinalMid(net, s, b)) <==> Clean(S.MidAt(s, b.txs, |b.txs|))
  {
    var ms := S.MidAt(s, b.txs, |b.txs|);
    S.PayoutFresh(s, ms, fees, gone, b);
    FreshId(ms, MinerOutput(BlockIdOf(b), 0));
    CreateClean(ms, MinerOutput(BlockIdOf(b), 0), b.payouts[0], Child(s) + net.maturityDelay);
    S.FinalIsCreate(net, s, b);
  }

  /** An accepted block adds leaves without stray proofs exactly if no unconfirmed input of it carries one. */
  lemma {:induction false} BlockClean(net: Network, s: State, b: Block, ids: seq<OutputID>)
    requires S.ChainGood(net, s, ids) && BlockVerdict(net, s, b) == Accepted
    ensures Clean(FinalMid(net, s, b)) <==> CleanTxs(b.txs)
  {
    hide FinalMid, S.MidAt, S.MidGood, Untouched, Clean, CleanTxs;
    S.AcceptedFacts(net, s, b);
    S.AcceptedTxs(net, s, b, ids);
    S.MarkersIdle(net, s, b);
    TxsClean(net, s, b.txs, ids, |b.txs|);
    assert b.txs[..|b.txs|] == b.txs;
    PayoutClean(net, s, b, SumFees(b.txs), S.SpentIds(ids, b.txs));
  }

  predicate NoProofs(ds: seq<Diff>) {
    forall j :: 0 <= j < |ds| ==> ds[j].element.proof == []
  }

  lemma {:induction false} Snoc(ds: seq<Diff>, d: Diff)
    ensures AllClean(ds + [d]) <==> AllClean(ds) && CleanDiff(d)
    ensures NoProofs(ds + [d]) <==> NoProofs(ds) && d.element.proof == []
  {
    var es := ds + [d];
    assert es[|ds|] == d && forall j :: 0 <= j < |ds| ==> es[j] == ds[j];
  }

  lemma {:induction false} UnassignedClean(sces: seq<Diff>)
    ensures NoProofs(Unassigned(sces)) <==> AllClean(sces)
  {
    if sces != [] {
      var front, d := sces[..|sces| - 1], sces[|sces| - 1];
      UnassignedClean(front);
      assert sces == front + [d];
      Snoc(front, d);
      Snoc(Unassigned(front), d);
    }
  }

  /** After an accepted block all leaves that it added are accepted by the accumulator if and only if none of its
      unconfirmed inputs carried a proof. */
  lemma {:induction false} AddedAcceptedIff(net: Network, s: State, b: Block, ids: seq<OutputID>,
                                            acc: ElementAccumulator,
                                            added: seq<ElementLeaf>)
    requires S.ChainGood(net, s, ids) && BlockVerdict(net, s, b) == Accepted
    requires AddedRight(acc, added, FinalMid(net, s, b).sces)
    ensures (forall j :: 0 <= j < |added| ==> acc.Accepts(added[j])) <==> CleanTxs(b.txs)
  {
    hide BlockVerdict, S.ChainGood, FinalMid, CleanTxs, Accumulator.ElementAccumulator.Accepts;
    var sces := FinalMid(net, s, b).sces;
    BlockClean(net, s, b, ids);
    UnassignedClean(sces);
    var n := |Unassigned(sces)|;
    assert Arrived(sces)[n] == [] && forall j :: 0 <= j < n ==> Arrived(sces)[j] == Unassigned(sces)[j].element.proof;
    assert (forall j :: 0 <= j < |added| ==> acc.Accepts(added[j]))
       ==> (forall j :: 0 <= j < n ==> acc.Accepts(added[j]));
  }
}
