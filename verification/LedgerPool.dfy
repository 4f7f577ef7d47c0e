/** The pool on a ledger state: what it holds is consistent, and rebuilding it changes nothing. */
module LedgerPool {
  import opened Types
  import opened Bits
  import opened Utxo
  import opened Ledger
  import opened Refinement
  import C = Currency
  import E = Ephemerals
  import P = Pool
  import S = Safety

  /** updateQdayEphemeralHeights for one input: an output of the pool itself is born in the child block. */
  function RestampInput(i: Input, height: nat): Input {
    if i.parent.leafIndex == UNASSIGNED then i.(parent := i.parent.(maturity := height)) else i
  }

  function Restamp(tx: Tx, height: nat): Tx {
    tx.(inputs := seq(|tx.inputs|, i requires 0 <= i < |tx.inputs| => RestampInput(tx.inputs[i], height)))
  }

  function PoolRules(net: Network, tip: State): P.Rules<Mid> {
    P.Rules(NewMid(tip),
            (m, tx) => Linked(m) && TxVerdict(net, m, tx) == Accepted,
            (m, tx) => if Linked(m) then ApplyTx(m, tx) else m,
            tx => Weight(net, tx),
            tx => Restamp(tx, Child(tip)))
  }

  /** The pool's transactions, in terms of the ledger. */
  predicate PoolValid(net: Network, tip: State, txs: seq<Tx>) {
    if txs == [] then true
    else
      var front := txs[..|txs| - 1];
      PoolValid(net, tip, front) && TxVerdict(net, ApplyTxs(NewMid(tip), front), txs[|txs| - 1]) == Accepted
  }

  lemma {:induction false} FoldStep(net: Network, tip: State, m: Mid, tx: Tx)
    requires Linked(m)
    ensures PoolRules(net, tip).apply(m, tx) == ApplyTx(m, tx)
    ensures PoolRules(net, tip).valid(m, tx) <==> TxVerdict(net, m, tx) == Accepted
  {}

  /** The cached state of the pool is the block state after its list. */
  lemma {:induction false} FoldIsApply(net: Network, tip: State, txs: seq<Tx>)
    ensures P.Fold(PoolRules(net, tip), txs) == ApplyTxs(NewMid(tip), txs)
    ensures P.PrefixesValid(PoolRules(net, tip), txs) <==> PoolValid(net, tip, txs)
  {
    if txs != [] {
      FoldIsApply(net, tip, txs[..|txs| - 1]);
      FoldStep(net, tip, ApplyTxs(NewMid(tip), txs[..|txs| - 1]), txs[|txs| - 1]);
    }
  }

  /** The pool never conflicts with itself or with the chain: its list could be a block. */
  lemma {:induction false} PoolGood(net: Network, tip: State, txs: seq<Tx>, ids: seq<OutputID>)
    requires S.StateGood(tip, ids) && PoolValid(net, tip, txs)
    ensures S.MidGood(tip, ApplyTxs(NewMid(tip), txs), SumFees(txs), S.SpentIds(ids, txs))
  {
    if txs == [] {
      S.NewMidGood(tip, ids);
    } else {
      var front := txs[..|txs| - 1];
      PoolGood(net, tip, front, ids);
      S.TxStep(net, tip, ApplyTxs(NewMid(tip), front), SumFees(front), S.SpentIds(ids, front), txs[|txs| - 1]);
    }
  }

  // ---- What the pool creates ----

  /** Whatever the block has created is named, paid and born as tag says. */
  predicate Marked(ms: Mid, tag: (OutputID, Output, nat) -> bool) {
    forall j :: 0 <= j < |ms.sces| && ms.sces[j].created ==>
      tag(ms.sces[j].element.id, ms.sces[j].element.output, ms.sces[j].element.maturity)
  }

  lemma {:induction false} SpendOneMarked(ms: Mid, e: SiacoinElement, txid: TxID, tag: (OutputID, Output, nat) -> bool)
    requires MidInv(ms) && Marked(ms, tag) && Available(ms, e)
    ensures Marked(Ledger.Spend(ms, e, txid), tag)
  {
    AvailableIsLive(ms, e);
    if e.id in ms.elements { assert DiffOk(ms, ms.elements[e.id]); }
  }

  lemma {:induction false} SpendMarked(ms: Mid, tx: Tx, k: nat, tag: (OutputID, Output, nat) -> bool)
    requires Linked(ms) && MidInv(ms) && Marked(ms, tag) && AllAvailable(ms, tx.inputs, 0) && k <= |tx.inputs|
    ensures Marked(SpendInputs(ms, tx, k), tag)
  {
    hide Marked, MidInv, AllAvailable, Available, Ledger.Spend;
    if k > 0 {
      SpendMarked(ms, tx, k - 1, tag);
      NextAvailable(ms, tx, k - 1);
      SpendOneMarked(SpendInputs(ms, tx, k - 1), tx.inputs[k - 1].parent, TxIdOf(tx), tag);
    }
  }

  lemma {:induction false} CreateMarked(ms: Mid, tx: Tx, k: nat, tag: (OutputID, Output, nat) -> bool)
    requires Linked(ms) && Marked(ms, tag) && k <= |tx.outputs|
    requires forall j :: 0 <= j < |tx.outputs| ==> tag(TxOutput(TxIdOf(tx), j), tx.outputs[j], Child(ms.base))
    ensures Marked(CreateOutputs(ms, tx, k), tag) && CreateOutputs(ms, tx, k).base == ms.base
  {
    if k > 0 { CreateMarked(ms, tx, k - 1, tag); }
  }

  lemma {:induction false} ApplyMarked(ms: Mid, tx: Tx, tag: (OutputID, Output, nat) -> bool)
    requires MidInv(ms) && Marked(ms, tag) && AllAvailable(ms, tx.inputs, 0)
    requires forall j :: 0 <= j < |tx.outputs| ==> tag(TxOutput(TxIdOf(tx), j), tx.outputs[j], Child(ms.base))
    ensures Marked(ApplyTx(ms, tx), tag)
  {
    var m := ms.(proved := ms.proved || IsCanaryProof(tx));
    ProvedIrrelevant(ms, m.proved);
    SpendMarked(m, tx, |tx.inputs|, tag);
    SpendInputsStep(m, tx, |tx.inputs|);
    CreateMarked(SpendInputs(m, tx, |tx.inputs|), tx, |tx.outputs|, tag);
  }

  /** The output of one of these transactions, born at the child height. */
  function Born(tip: State, txs: seq<Tx>): (OutputID, Output, nat) -> bool {
    (id, o, height) =>
      height == Child(tip) && exists j :: 0 <= j < |txs| && Creates(txs[j], id) && o == txs[j].outputs[id.index]
  }

  lemma {:induction false} BornWeakens(tip: State, ms: Mid, txs: seq<Tx>)
    requires txs != [] && Marked(ms, Born(tip, txs[..|txs| - 1]))
    ensures Marked(ms, Born(tip, txs))
  {
    var front := txs[..|txs| - 1];
    forall j | 0 <= j < |ms.sces| && ms.sces[j].created
      ensures Born(tip, txs)(ms.sces[j].element.id, ms.sces[j].element.output, ms.sces[j].element.maturity)
    {
      var e := ms.sces[j].element;
      assert Born(tip, front)(e.id, e.output, e.maturity);
      var i :| 0 <= i < |front| && Creates(front[i], e.id) && e.output == front[i].outputs[e.id.index];
      assert txs[i] == front[i];
    }
  }

  lemma {:induction false} LastBorn(tip: State, txs: seq<Tx>, j: nat)
    requires txs != [] && j < |txs[|txs| - 1].outputs|
    ensures var tx := txs[|txs| - 1]; Born(tip, txs)(TxOutput(TxIdOf(tx), j), tx.outputs[j], Child(tip))
  {
    assert Creates(txs[|txs| - 1], TxOutput(TxIdOf(txs[|txs| - 1]), j));
  }

  /** What the pool creates are the outputs of its own transactions, born at the child height. */
  lemma {:induction false} PoolMarked(net: Network, tip: State, txs: seq<Tx>)
    requires S.StateGood(tip, []) && PoolValid(net, tip, txs)
    ensures Marked(ApplyTxs(NewMid(tip), txs), Born(tip, txs))
  {
    hide Born, ApplyTx, TxVerdict;
    if txs != [] {
      var front, tx := txs[..|txs| - 1], txs[|txs| - 1];
      PoolMarked(net, tip, front);
      PoolGood(net, tip, front, []);
      S.AcceptedInputs(net, ApplyTxs(NewMid(tip), front), tx);
      BornWeakens(tip, ApplyTxs(NewMid(tip), front), txs);
      forall j | 0 <= j < |tx.outputs|
        ensures Born(tip, txs)(TxOutput(TxIdOf(tx), j), tx.outputs[j], Child(tip))
      {
        LastBorn(tip, txs, j);
      }
      ApplyMarked(ApplyTxs(NewMid(tip), front), tx, Born(tip, txs));
    }
  }

  lemma {:induction false} CreatedIsBorn(ms: Mid, e: SiacoinElement, tip: State, txs: seq<Tx>)
    requires Linked(ms) && Marked(ms, Born(tip, txs)) && Ephemeral(ms, e)
    ensures e.maturity == Child(tip)
    ensures exists j :: 0 <= j < |txs| && Creates(txs[j], e.id) && e.output == txs[j].outputs[e.id.index]
  {
    var d := ms.sces[ms.elements[e.id]].element;
    assert Born(tip, txs)(d.id, d.output, d.maturity);
  }

  lemma {:induction false} RestampIdle(ms: Mid, tx: Tx, tip: State, txs: seq<Tx>)
    requires Linked(ms) && Marked(ms, Born(tip, txs)) && AllAvailable(ms, tx.inputs, 0)
    ensures Restamp(tx, Child(tip)) == tx
  {
    hide Born, Marked;
    forall i | 0 <= i < |tx.inputs|
      ensures RestampInput(tx.inputs[i], Child(tip)) == tx.inputs[i]
    {
      assert Available(ms, tx.inputs[i].parent);
      if Unconfirmed(tx.inputs[i]) { CreatedIsBorn(ms, tx.inputs[i].parent, tip, txs); }
    }
    assert Restamp(tx, Child(tip)).inputs == tx.inputs;
  }

  lemma {:induction false} InputsBacked(ms: Mid, inputs: seq<Input>, tip: State, txs: seq<Tx>, k: nat)
    requires Linked(ms) && k <= |txs| && Marked(ms, Born(tip, txs[..k])) && AllAvailable(ms, inputs, 0)
    ensures forall a :: 0 <= a < |inputs| && Unconfirmed(inputs[a]) ==> E.Backed(txs, k, inputs[a])
  {
    hide Born, Marked;
    forall a | 0 <= a < |inputs| && Unconfirmed(inputs[a])
      ensures E.Backed(txs, k, inputs[a])
    {
      var e := inputs[a].parent;
      assert Available(ms, e);
      CreatedIsBorn(ms, e, tip, txs[..k]);
      var j :| 0 <= j < k && Creates(txs[..k][j], e.id) && e.output == txs[..k][j].outputs[e.id.index];
      assert Creates(txs[j], e.id);
    }
  }

  lemma {:induction false} LastBacked(net: Network, tip: State, txs: seq<Tx>, k: nat)
    requires S.StateGood(tip, []) && k < |txs| && PoolValid(net, tip, txs[..k])
    requires TxVerdict(net, ApplyTxs(NewMid(tip), txs[..k]), txs[k]) == Accepted
    ensures E.MemberOk(txs, k)
  {
    hide Born, Marked;
    var ms := ApplyTxs(NewMid(tip), txs[..k]);
    PoolGood(net, tip, txs[..k], []);
    PoolMarked(net, tip, txs[..k]);
    S.AcceptedInputs(net, ms, txs[k]);
    InputsBacked(ms, txs[k].inputs, tip, txs, k);
  }

  lemma {:induction false} PoolPrefix(net: Network, tip: State, txs: seq<Tx>, k: nat)
    requires PoolValid(net, tip, txs) && k < |txs|
    ensures PoolValid(net, tip, txs[..k]) && TxVerdict(net, ApplyTxs(NewMid(tip), txs[..k]), txs[k]) == Accepted
    decreases |txs|
  {
    hide ApplyTx, TxVerdict;
    if k < |txs| - 1 {
      PoolPrefix(net, tip, txs[..|txs| - 1], k);
      assert txs[..|txs| - 1][..k] == txs[..k];
    }
  }

  /** The check of ephemeral outputs refuses no set that is valid on the tip. */
  lemma {:induction false} EphemeralsFollow(net: Network, tip: State, txs: seq<Tx>)
    requires S.StateGood(tip, []) && PoolValid(net, tip, txs)
    ensures E.EphemeralsOk(txs)
  {
    forall k | 0 <= k < |txs|
      ensures E.MemberOk(txs, k)
    {
      PoolPrefix(net, tip, txs, k);
      LastBacked(net, tip, txs, k);
    }
  }

  lemma {:induction false} LastRestampIdle(net: Network, tip: State, front: seq<Tx>, tx: Tx)
    requires S.StateGood(tip, []) && PoolValid(net, tip, front)
    requires TxVerdict(net, ApplyTxs(NewMid(tip), front), tx) == Accepted
    ensures Restamp(tx, Child(tip)) == tx
  {
    hide Born, Marked;
    PoolGood(net, tip, front, []);
    PoolMarked(net, tip, front);
    S.AcceptedInputs(net, ApplyTxs(NewMid(tip), front), tx);
    RestampIdle(ApplyTxs(NewMid(tip), front), tx, tip, front);
  }

  lemma {:induction false} PoolRestampIdle(net: Network, tip: State, txs: seq<Tx>, k: nat)
    requires S.StateGood(tip, []) && PoolValid(net, tip, txs) && k < |txs|
    ensures Restamp(txs[k], Child(tip)) == txs[k]
    decreases |txs|
  {
    if k < |txs| - 1 {
      PoolRestampIdle(net, tip, txs[..|txs| - 1], k);
    } else {
      LastRestampIdle(net, tip, txs[..|txs| - 1], txs[k]);
    }
  }

  /** Rebuilding a valid pool on an unchanged tip gives the same pool: a set that was refused leaves no
      trace once the cached state has been rebuilt. */
  lemma {:induction false} RebuildsToItself(net: Network, tip: State, txs: seq<Tx>, indices: map<TxID, nat>)
    requires S.StateGood(tip, []) && PoolValid(net, tip, txs) && P.Indices(indices, txs)
    ensures P.Refilled(PoolRules(net, tip), P.Restamped(PoolRules(net, tip), txs)) == txs
  {
    hide TxVerdict, ApplyTx, S.StateGood, P.Refilled, P.PrefixesValid;
    forall k | 0 <= k < |txs|
      ensures Restamp(txs[k], Child(tip)) == txs[k]
    {
      PoolRestampIdle(net, tip, txs, k);
    }
    assert P.Restamped(PoolRules(net, tip), txs) == txs;
    FoldIsApply(net, tip, txs);
    P.RefillPrefix(PoolRules(net, tip), indices, txs, |txs|);
    assert txs[..|txs|] == txs;
  }

  lemma {:induction false} LastWeighs(net: Network, m: Mid, tx: Tx)
    requires Linked(m) && TxVerdict(net, m, tx) == Accepted
    ensures Weight(net, tx) > 0
  {}

  lemma {:induction false} PoolWeighs(net: Network, tip: State, txs: seq<Tx>)
    requires PoolValid(net, tip, txs)
    ensures P.Weighty(PoolRules(net, tip), txs)
  {
    forall k | 0 <= k < |txs|
      ensures PoolRules(net, tip).weight(txs[k]) > 0
    {
      PoolPrefix(net, tip, txs, k);
      LastWeighs(net, ApplyTxs(NewMid(tip), txs[..k]), txs[k]);
    }
  }

  /** A pool on this tip that has not reached its weight limit; it may have lost its cached state. */
  ghost predicate Ready(p: P.Pool<Mid>, net: Network, tip: State)
    reads p
  {
    p.rules == PoolRules(net, tip) && p.Valid() && p.weight < P.MAX_POOL_WEIGHT && S.StateGood(tip, [])
  }

  lemma {:induction false} ReadyRebuilds(p: P.Pool<Mid>, net: Network, tip: State)
    requires Ready(p, net, tip)
    ensures P.Weighty(p.rules, p.txns) && P.Refilled(p.rules, P.Restamped(p.rules, p.txns)) == p.txns
  {
    FoldIsApply(net, tip, p.txns);
    PoolWeighs(net, tip, p.txns);
    RebuildsToItself(net, tip, p.txns, p.indices);
  }

  lemma {:induction false} IndicesUnique(a: map<TxID, nat>, b: map<TxID, nat>, txs: seq<Tx>)
    requires P.Indices(a, txs) && P.Indices(b, txs)
    ensures a == b
  {
    assert forall id :: id in a ==> id == TxIdOf(txs[a[id]]) && id in b && b[id] == a[id];
    assert forall id :: id in b ==> id == TxIdOf(txs[b[id]]) && id in a;
  }

  /** On an unchanged tip and below the weight limit, a set is added to the list as it was, or nothing
      changes, also when an earlier set was refused and took the cached state with it. */
  method Submit(p: P.Pool<Mid>, net: Network, tip: State, more: seq<Tx>, rebased: Option<seq<Tx>>)
    returns (o: P.Outcome)
    requires Ready(p, net, tip)
    modifies p
    ensures p.Valid() && o == P.SetOutcome(p.rules, old(p.txns), more, rebased)
    ensures o == P.Added ==> P.Extended(p.rules, old(p.txns), rebased.value) == Some(p.txns)
    ensures o != P.Added ==> p.txns == old(p.txns) && p.indices == old(p.indices) && p.weight == old(p.weight)
  {
    ReadyRebuilds(p, net, tip);
    ghost var base, kept, dropped, places;
    o, base, kept, dropped, places := p.AddTransactions(more, rebased);
    if o != P.Added { IndicesUnique(p.indices, old(p.indices), p.txns); }
  }

  datatype Offer = Offer(members: seq<Tx>, rebased: Option<seq<Tx>>)

  /** The list after a number of offers: each adds all that is new of it, or nothing. */
  ghost function Collected(r: P.Rules<Mid>, txs: seq<Tx>, offers: seq<Offer>): seq<Tx> {
    if offers == [] then txs
    else
      var list, o := Collected(r, txs, offers[..|offers| - 1]), offers[|offers| - 1];
      if P.SetOutcome(r, list, o.members, o.rebased) == P.Added
      then P.Extended(r, list, o.rebased.value).value
      else list
  }

  lemma {:induction false} CollectedNext(r: P.Rules<Mid>, txs: seq<Tx>, offers: seq<Offer>, k: nat)
    requires k < |offers|
    ensures var list, o := Collected(r, txs, offers[..k]), offers[k];
            Collected(r, txs, offers[..k + 1]) ==
            if P.SetOutcome(r, list, o.members, o.rebased) == P.Added
            then P.Extended(r, list, o.rebased.value).value
            else list
  {
    assert offers[..k + 1][..k] == offers[..k];
  }

  /** Any number of offers on one tip, up to the weight limit: what was refused leaves no trace. */
  method SubmitAll(p: P.Pool<Mid>, net: Network, tip: State, offers: seq<Offer>) returns (k: nat)
    requires Ready(p, net, tip)
    modifies p
    ensures k <= |offers| && p.Valid() && p.txns == Collected(p.rules, old(p.txns), offers[..k])
    ensures k < |offers| ==> p.weight >= P.MAX_POOL_WEIGHT
  {
    hide P.SetOutcome, P.Extended, S.StateGood, PoolRules;
    k := 0;
    while k < |offers| && p.weight < P.MAX_POOL_WEIGHT
      invariant k <= |offers| && p.rules == PoolRules(net, tip) && p.Valid()
      invariant p.txns == Collected(p.rules, old(p.txns), offers[..k])
    {
      CollectedNext(p.rules, old(p.txns), offers, k);
      var o := Submit(p, net, tip, offers[k].members, offers[k].rebased);
      k := k + 1;
    }
  }

  /** Validating any transaction against the pool does not overflow. */
  lemma {:induction false} PoolNoPanic(net: Network, tip: State, txs: seq<Tx>, tx: Tx)
    requires S.StateGood(tip, []) && Total(S.Unspent(tip)) < C.LIMIT && PoolValid(net, tip, txs)
    ensures TxVerdict(net, ApplyTxs(NewMid(tip), txs), tx) != Panicked
  {
    PoolGood(net, tip, txs, []);
    S.TxNoPanic(net, tip, ApplyTxs(NewMid(tip), txs), SumFees(txs), S.SpentIds([], txs), tx);
  }
}
