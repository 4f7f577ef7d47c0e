/** checkEphemeralOutputs: what a set of transactions offered to the pool spends before it is confirmed. */
module Ephemerals {
  import opened Types
  import opened Ledger

  /** The input names an output of one of the first k members, with its value and address. */
  ghost predicate Backed(txs: seq<Tx>, k: nat, i: Input)
    requires k <= |txs|
  {
    exists j :: 0 <= j < k && Creates(txs[j], i.parent.id) && i.parent.output == txs[j].outputs[i.parent.id.index]
  }

  ghost predicate MemberOk(txs: seq<Tx>, k: nat)
    requires k < |txs|
  {
    forall a :: 0 <= a < |txs[k].inputs| && Unconfirmed(txs[k].inputs[a]) ==> Backed(txs, k, txs[k].inputs[a])
  }

  /** Every unconfirmed input of the set names an output of an earlier member, as it was created. */
  ghost predicate EphemeralsOk(txs: seq<Tx>) {
    forall k :: 0 <= k < |txs| ==> MemberOk(txs, k)
  }

  /** The outputs of the first k members, by ID. */
  ghost predicate Made(txs: seq<Tx>, k: nat, outputs: map<OutputID, Output>)
    requires k <= |txs|
  {
    && (forall id :: id in outputs ==>
          id.TxOutput? && id.index < |id.tx.outputs| && outputs[id] == id.tx.outputs[id.index])
    && (forall id :: id in outputs ==> exists j :: 0 <= j < k && Creates(txs[j], id))
    && (forall id, j :: 0 <= j < k && Creates(txs[j], id) ==> id in outputs)
  }

  method CheckMember(txs: seq<Tx>, k: nat, outputs: map<OutputID, Output>) returns (ok: bool)
    requires k < |txs| && Made(txs, k, outputs)
    ensures ok <==> MemberOk(txs, k)
  {
    var inputs := txs[k].inputs;
    for a := 0 to |inputs|
      invariant forall b :: 0 <= b < a && Unconfirmed(inputs[b]) ==> Backed(txs, k, inputs[b])
    {
      var i := inputs[a];
      if Unconfirmed(i) {
        BackedIff(txs, k, outputs, i);
        if i.parent.id !in outputs || i.parent.output != outputs[i.parent.id] {
          return false;
        }
      }
    }
    ok := true;
  }

  lemma {:induction false} BackedIff(txs: seq<Tx>, k: nat, outputs: map<OutputID, Output>, i: Input)
    requires k <= |txs| && Made(txs, k, outputs)
    ensures Backed(txs, k, i) <==> i.parent.id in outputs && i.parent.output == outputs[i.parent.id]
  {
    if i.parent.id in outputs {
      var j :| 0 <= j < k && Creates(txs[j], i.parent.id);
      assert txs[j].outputs == i.parent.id.tx.outputs;
    }
  }

  method AddMember(txs: seq<Tx>, k: nat, outputs: map<OutputID, Output>) returns (more: map<OutputID, Output>)
    requires k < |txs| && Made(txs, k, outputs)
    ensures Made(txs, k + 1, more)
  {
    more := outputs;
    var tx, txid := txs[k], TxIdOf(txs[k]);
    for j := 0 to |tx.outputs|
      invariant forall id :: id in more <==> id in outputs || (Creates(tx, id) && id.index < j)
      invariant forall id :: id in more ==>
                  id.TxOutput? && id.index < |id.tx.outputs| && more[id] == id.tx.outputs[id.index]
    {
      more := more[TxOutput(txid, j) := tx.outputs[j]];
    }
    forall id | id in more
      ensures exists j :: 0 <= j < k + 1 && Creates(txs[j], id)
    {
      if id in outputs {
        var j :| 0 <= j < k && Creates(txs[j], id);
        assert Creates(txs[j], id);
      } else {
        assert Creates(txs[k], id);
      }
    }
  }

  method CheckEphemerals(txs: seq<Tx>) returns (ok: bool)
    ensures ok <==> EphemeralsOk(txs)
  {
    var outputs: map<OutputID, Output> := map[];
    for k := 0 to |txs|
      invariant Made(txs, k, outputs) && forall j :: 0 <= j < k ==> MemberOk(txs, j)
    {
      ok := CheckMember(txs, k, outputs);
      if !ok {
        return;
      }
      outputs := AddMember(txs, k, outputs);
    }
    ok := true;
  }
}
