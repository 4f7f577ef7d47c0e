/** The maps within a block and the accumulator together implement the plain ledger of unspent coins. */
module Refinement {
  import opened Types
  import opened Utxo
  import opened Bits
  import opened Ledger

  // ---- The plain ledger behind a leaf list ----

  function LeafEntry(h: Hash): Entry {
    if h.LeafHash? && h.element.Siacoin?
    then Entry(h.element.id, Coin(h.element.output, h.element.maturity), !h.spent)
    else Other
  }

  function Entries(ls: seq<Hash>): (es: seq<Entry>)
    ensures |es| == |ls| && forall i :: 0 <= i < |ls| ==> es[i] == LeafEntry(ls[i])
  {
    seq(|ls|, i requires 0 <= i < |ls| => LeafEntry(ls[i]))
  }

  /** The leaves as they would be if the block ended here. */
  function MidEntries(ms: Mid): seq<Entry> {
    Entries(NewLeaves(ms.base.leaves, ms.sces))
  }

  function BookOf(es: seq<Entry>): Book {
    Book(Live(es), Ids(es))
  }

  // ---- Where a diff's leaf is ----

  /** The number of added leaves before diff j. */
  function Rank(sces: seq<Diff>, j: nat): nat
    requires j <= |sces|
  {
    |Appended(0, sces[..j])|
  }

  lemma {:induction false} AppendedLength(n: nat, sces: seq<Diff>)
    ensures |Appended(n, sces)| == |Appended(0, sces)|
  {
    if sces != [] { AppendedLength(n, sces[..|sces| - 1]); }
  }

  lemma {:induction false} AppendedAt(n: nat, sces: seq<Diff>, j: nat)
    requires j < |sces| && sces[j].element.leafIndex == UNASSIGNED
    ensures var r := Rank(sces, j); r < |Appended(n, sces)| && Appended(n, sces)[r] == Leaf(sces[j], n + r)
    decreases |sces|
  {
    var front := sces[..|sces| - 1];
    AppendedLength(n, front);
    if j < |front| {
      AppendedAt(n, front, j);
      assert front[..j] == sces[..j];
    }
  }

  /** Rewriting an added diff rewrites its leaf. */
  lemma {:induction false} AppendedUpdate(ls: seq<Hash>, sces: seq<Diff>, j: nat, d: Diff)
    requires j < |sces| && sces[j].element.leafIndex == UNASSIGNED && d.element.leafIndex == UNASSIGNED
    ensures Patched(ls, sces[j := d]) == Patched(ls, sces)
    ensures Rank(sces, j) < |Appended(|ls|, sces)|
    ensures Appended(|ls|, sces[j := d]) == Appended(|ls|, sces)[Rank(sces, j) := Leaf(d, |ls| + Rank(sces, j))]
    decreases |sces|
  {
    hide Leaf;
    var front, ts := sces[..|sces| - 1], sces[j := d];
    AppendedLength(|ls|, front);
    if j < |front| {
      AppendedUpdate(ls, front, j, d);
      assert front[..j] == sces[..j];
      assert ts[..|ts| - 1] == front[j := d];
    } else {
      assert ts[..|ts| - 1] == front;
    }
  }

  /** An earlier leaf is as it was, or as some diff left it. */
  lemma {:induction false} PatchedAt(ls: seq<Hash>, sces: seq<Diff>, i: nat) returns (j: nat)
    requires i < |ls| < MAX_LEAVES
    ensures Patched(ls, sces)[i] == ls[i]
         || (j < |sces| && sces[j].element.leafIndex == i && Patched(ls, sces)[i] == Leaf(sces[j], i))
  {
    j := 0;
    if sces != [] {
      var n := |sces| - 1;
      j := PatchedAt(ls, sces[..n], i);
      if sces[n].element.leafIndex == i { j := n; }
    }
  }

  // ---- The invariant within a block ----

  /** Diff j is found by its ID, is spent exactly if the spends say so, and is either a creation of this
      block, which has no position yet, or the spending of a leaf that was unspent before the block. */
  predicate DiffOk(ms: Mid, j: nat)
    requires j < |ms.sces|
  {
    var d := ms.sces[j];
    && d.element.id in ms.elements && ms.elements[d.element.id] == j
    && (d.spent <==> d.element.id in ms.spends)
    && (d.created <==> d.element.leafIndex == UNASSIGNED)
    && (!d.created ==> d.spent && Present(ms.base, d.element))
  }

  predicate MidInv(ms: Mid) {
    && |ms.base.leaves| < MAX_LEAVES && Linked(ms)
    && (forall j :: 0 <= j < |ms.sces| ==> DiffOk(ms, j))
    && (forall id :: id in ms.elements ==> ms.sces[ms.elements[id]].element.id == id)
    && (forall id :: id in ms.spends ==> id in ms.elements)
    && UniqueIds(MidEntries(ms))
  }

  function CoinOf(e: SiacoinElement): Coin {
    Coin(e.output, e.maturity)
  }

  /** The position of an available output's leaf. */
  function Position(ms: Mid, e: SiacoinElement): nat
    requires Linked(ms) && Available(ms, e)
  {
    if e.leafIndex == UNASSIGNED then |ms.base.leaves| + Rank(ms.sces, ms.elements[e.id]) else e.leafIndex
  }

  lemma {:induction false} CreatedEntry(ms: Mid, j: nat)
    requires MidInv(ms) && j < |ms.sces| && ms.sces[j].created
    ensures var p := |ms.base.leaves| + Rank(ms.sces, j);
            var d := ms.sces[j];
            p < |MidEntries(ms)| && MidEntries(ms)[p] == Entry(d.element.id, CoinOf(d.element), !d.spent)
  {
    assert DiffOk(ms, j);
    AppendedAt(|ms.base.leaves|, ms.sces, j);
  }

  /** What validation calls available is a live coin of the plain ledger, with exactly the value, address
      and birth height that the input claims. */
  lemma {:induction false} AvailableIsLive(ms: Mid, e: SiacoinElement)
    requires MidInv(ms) && Available(ms, e)
    ensures Position(ms, e) < |MidEntries(ms)|
    ensures MidEntries(ms)[Position(ms, e)] == Entry(e.id, CoinOf(e), true)
    ensures e.leafIndex != UNASSIGNED ==> e.id !in ms.elements
  {
    if e.leafIndex == UNASSIGNED {
      assert DiffOk(ms, ms.elements[e.id]);
      CreatedEntry(ms, ms.elements[e.id]);
    } else {
      var j := PatchedAt(ms.base.leaves, ms.sces, e.leafIndex);
      if j < |ms.sces| { assert DiffOk(ms, j); }
      assert MidEntries(ms)[e.leafIndex] == Entry(e.id, CoinOf(e), true);
      if e.id in ms.elements {
        assert DiffOk(ms, ms.elements[e.id]);
        CreatedEntry(ms, ms.elements[e.id]);
        ListedOnce(MidEntries(ms), e.leafIndex, |ms.base.leaves| + Rank(ms.sces, ms.elements[e.id]));
        assert false;
      }
    }
  }

  // ---- Spending ----

  lemma {:induction false} SpendEntries(ms: Mid, e: SiacoinElement, txid: TxID)
    requires MidInv(ms) && Available(ms, e) && Position(ms, e) < |MidEntries(ms)|
    requires e.leafIndex != UNASSIGNED ==> e.id !in ms.elements
    ensures MidEntries(Ledger.Spend(ms, e, txid)) == MidEntries(ms)[Position(ms, e) := Entry(e.id, CoinOf(e), false)]
  {
    var ls, ms' := ms.base.leaves, Ledger.Spend(ms, e, txid);
    if e.leafIndex == UNASSIGNED {
      var j := ms.elements[e.id];
      assert DiffOk(ms, j);
      AppendedUpdate(ls, ms.sces, j, Diff(e, true, true));
      assert ms'.sces == ms.sces[j := Diff(e, true, true)];
      var p := Position(ms, e);
      assert NewLeaves(ls, ms'.sces) == NewLeaves(ls, ms.sces)[p := Leaf(Diff(e, true, true), p)];
    } else {
      assert ms'.sces[..|ms'.sces| - 1] == ms.sces;
      assert NewLeaves(ls, ms'.sces) == NewLeaves(ls, ms.sces)[e.leafIndex := Leaf(Diff(e, false, true), e.leafIndex)];
    }
  }

  lemma {:induction false} SpendDiffs(ms: Mid, e: SiacoinElement, txid: TxID)
    requires MidInv(ms) && Available(ms, e)
    requires e.leafIndex != UNASSIGNED ==> e.id !in ms.elements
    ensures var ms' := Ledger.Spend(ms, e, txid);
            && (forall j :: 0 <= j < |ms'.sces| ==> DiffOk(ms', j))
            && (forall id :: id in ms'.elements ==> ms'.sces[ms'.elements[id]].element.id == id)
            && (forall id :: id in ms'.spends ==> id in ms'.elements)
  {
    var ms' := Ledger.Spend(ms, e, txid);
    forall j | 0 <= j < |ms'.sces|
      ensures DiffOk(ms', j)
    {
      if j < |ms.sces| { assert DiffOk(ms, j); }
    }
  }

  /** Spending an available output takes exactly that coin out of the plain ledger. */
  lemma {:induction false} SpendStep(ms: Mid, e: SiacoinElement, txid: TxID)
    requires MidInv(ms) && Available(ms, e)
    ensures var ms' := Ledger.Spend(ms, e, txid);
            && MidInv(ms') && ms'.base == ms.base && ms'.proved == ms.proved
            && BookOf(MidEntries(ms')) == Utxo.Spend(BookOf(MidEntries(ms)), e.id)
            && e.id in BookOf(MidEntries(ms)).coins && BookOf(MidEntries(ms)).coins[e.id] == CoinOf(e)
  {
    var es := MidEntries(ms);
    AvailableIsLive(ms, e);
    SpendEntries(ms, e, txid);
    SpendDiffs(ms, e, txid);
    LiveAt(es, Position(ms, e));
    MarkSpent(es, Position(ms, e), CoinOf(e));
  }

  /** Another available output stays available. */
  lemma {:induction false} SpendOther(ms: Mid, e: SiacoinElement, txid: TxID, other: SiacoinElement)
    requires MidInv(ms) && Available(ms, e) && Available(ms, other) && other.id != e.id
    ensures Available(Ledger.Spend(ms, e, txid), other)
  {
    if other.leafIndex == UNASSIGNED { assert DiffOk(ms, ms.elements[other.id]); }
  }

  // ---- Creating ----

  lemma {:induction false} RecordedIsUsed(ms: Mid, id: OutputID)
    requires MidInv(ms) && id in ms.elements
    ensures id in Ids(MidEntries(ms))
  {
    var j := ms.elements[id];
    var d := ms.sces[j];
    assert DiffOk(ms, j);
    if d.created {
      CreatedEntry(ms, j);
      LiveAt(MidEntries(ms), |ms.base.leaves| + Rank(ms.sces, j));
    } else {
      var i := d.element.leafIndex;
      var k := PatchedAt(ms.base.leaves, ms.sces, i);
      if Patched(ms.base.leaves, ms.sces)[i] != ms.base.leaves[i] { assert DiffOk(ms, k); }
      assert MidEntries(ms)[i].Entry? && MidEntries(ms)[i].id == id;
      LiveAt(MidEntries(ms), i);
    }
  }

  lemma {:induction false} CreateDiffs(ms: Mid, id: OutputID, output: Output, maturity: nat)
    requires MidInv(ms) && id !in ms.elements
    ensures var ms' := Ledger.Create(ms, id, output, maturity);
            && (forall j :: 0 <= j < |ms'.sces| ==> DiffOk(ms', j))
            && (forall i :: i in ms'.elements ==> ms'.sces[ms'.elements[i]].element.id == i)
            && (forall i :: i in ms'.spends ==> i in ms'.elements)
  {
    var ms' := Ledger.Create(ms, id, output, maturity);
    forall j | 0 <= j < |ms'.sces|
      ensures DiffOk(ms', j)
    {
      if j < |ms.sces| { assert DiffOk(ms, j); }
    }
  }

  /** Creating an output under an unused ID adds exactly that coin to the plain ledger. */
  lemma {:induction false} CreateStep(ms: Mid, id: OutputID, output: Output, maturity: nat)
    requires MidInv(ms) && id !in Ids(MidEntries(ms))
    ensures var ms' := Ledger.Create(ms, id, output, maturity);
            && MidInv(ms') && ms'.base == ms.base && ms'.proved == ms.proved
            && BookOf(MidEntries(ms')) == Utxo.Create(BookOf(MidEntries(ms)), id, Coin(output, maturity))
  {
    var es, ms' := MidEntries(ms), Ledger.Create(ms, id, output, maturity);
    if id in ms.elements { RecordedIsUsed(ms, id); }
    CreateDiffs(ms, id, output, maturity);
    var e := Entry(id, Coin(output, maturity), true);
    CreateEntries(ms, id, output, maturity);
    Append(es, e);
  }

  lemma {:induction false} CreateEntries(ms: Mid, id: OutputID, output: Output, maturity: nat)
    requires Linked(ms) && id !in ms.elements
    ensures MidEntries(Ledger.Create(ms, id, output, maturity))
         == MidEntries(ms) + [Entry(id, Coin(output, maturity), true)]
  {
    var ls, ms' := ms.base.leaves, Ledger.Create(ms, id, output, maturity);
    var d := ms'.sces[|ms.sces|];
    assert ms'.sces[..|ms'.sces| - 1] == ms.sces;
    assert NewLeaves(ls, ms'.sces) == NewLeaves(ls, ms.sces) + [Leaf(d, |ls| + |Appended(|ls|, ms.sces)|)];
  }

  // ---- One transaction ----

  function ClaimsOf(inputs: seq<Input>): Claims {
    seq(|inputs|, i requires 0 <= i < |inputs| => (inputs[i].parent.id, CoinOf(inputs[i].parent)))
  }

  predicate AllAvailable(ms: Mid, inputs: seq<Input>, k: nat)
    requires Linked(ms)
  {
    DistinctInputs(inputs) && forall i :: k <= i < |inputs| ==> Available(ms, inputs[i].parent)
  }

  lemma {:induction false} SpendOthers(ms: Mid, inputs: seq<Input>, k: nat, txid: TxID)
    requires MidInv(ms) && k < |inputs| && AllAvailable(ms, inputs, k)
    ensures AllAvailable(Ledger.Spend(ms, inputs[k].parent, txid), inputs, k + 1)
  {
    forall i | k + 1 <= i < |inputs|
      ensures Available(Ledger.Spend(ms, inputs[k].parent, txid), inputs[i].parent)
    {
      SpendOther(ms, inputs[k].parent, txid, inputs[i].parent);
    }
  }

  lemma {:induction false} SpendAllLast(b: Book, claims: Claims, k: nat)
    requires 0 < k <= |claims|
    ensures SpendAll(b, claims[..k]) == Utxo.Spend(SpendAll(b, claims[..k - 1]), claims[k - 1].0)
  {
    assert claims[..k][..k - 1] == claims[..k - 1];
  }

  lemma {:induction false} FirstAvailable(ms: Mid, inputs: seq<Input>, k: nat)
    requires Linked(ms) && k < |inputs| && AllAvailable(ms, inputs, k)
    ensures Available(ms, inputs[k].parent)
  {}

  lemma {:induction false} ClaimAt(inputs: seq<Input>, k: nat)
    requires k < |inputs|
    ensures |ClaimsOf(inputs)| == |inputs| && ClaimsOf(inputs)[k].0 == inputs[k].parent.id
  {}

  lemma {:induction false} InvLinks(ms: Mid)
    requires MidInv(ms)
    ensures Linked(ms)
  {}

  lemma {:induction false} SpendNone(ms: Mid, claims: Claims)
    ensures SpendAll(BookOf(MidEntries(ms)), claims[..0]) == BookOf(MidEntries(ms))
  {}

  lemma {:induction false} SpendInputsStep(ms: Mid, tx: Tx, k: nat)
    requires MidInv(ms) && AllAvailable(ms, tx.inputs, 0) && k <= |tx.inputs|
    ensures var ms' := SpendInputs(ms, tx, k);
            && MidInv(ms') && ms'.base == ms.base && ms'.proved == ms.proved && AllAvailable(ms', tx.inputs, k)
            && BookOf(MidEntries(ms')) == SpendAll(BookOf(MidEntries(ms)), ClaimsOf(tx.inputs)[..k])
  {
    hide MidInv, MidEntries, BookOf, SpendAll, Ledger.Spend, AllAvailable, Available, ClaimsOf;
    InvLinks(ms);
    if k == 0 {
      SpendNone(ms, ClaimsOf(tx.inputs));
    } else {
      SpendInputsStep(ms, tx, k - 1);
      var m := SpendInputs(ms, tx, k - 1);
      FirstAvailable(m, tx.inputs, k - 1);
      SpendStep(m, tx.inputs[k - 1].parent, TxIdOf(tx));
      SpendOthers(m, tx.inputs, k - 1, TxIdOf(tx));
      ClaimAt(tx.inputs, k - 1);
      SpendAllLast(BookOf(MidEntries(ms)), ClaimsOf(tx.inputs), k);
    }
  }

  lemma {:induction false} NextAvailable(ms: Mid, tx: Tx, k: nat)
    requires MidInv(ms) && AllAvailable(ms, tx.inputs, 0) && k < |tx.inputs|
    ensures MidInv(SpendInputs(ms, tx, k)) && Available(SpendInputs(ms, tx, k), tx.inputs[k].parent)
  {
    SpendInputsStep(ms, tx, k);
  }

  /** The inputs that validation lets through are spendable in the plain ledger. */
  lemma {:induction false} InputsSpendable(ms: Mid, inputs: seq<Input>)
    requires MidInv(ms) && AllAvailable(ms, inputs, 0)
    ensures Spendable(BookOf(MidEntries(ms)), ClaimsOf(inputs))
  {
    var b, claims := BookOf(MidEntries(ms)), ClaimsOf(inputs);
    forall i | 0 <= i < |claims|
      ensures claims[i].0 in b.coins && b.coins[claims[i].0] == claims[i].1
    {
      var e := inputs[i].parent;
      AvailableIsLive(ms, e);
      LiveAt(MidEntries(ms), Position(ms, e));
    }
  }

  lemma {:induction false} CreateOutputsStep(ms: Mid, tx: Tx, k: nat)
    requires MidInv(ms) && k <= |tx.outputs|
    requires forall j :: TxOutput(TxIdOf(tx), j) !in Ids(MidEntries(ms))
    ensures var ms' := CreateOutputs(ms, tx, k);
            && MidInv(ms') && ms'.base == ms.base && ms'.proved == ms.proved
            && BookOf(MidEntries(ms')) == CreateAll(BookOf(MidEntries(ms)), TxIdOf(tx), k, Child(ms.base))
            && (forall j :: j >= k ==> TxOutput(TxIdOf(tx), j) !in Ids(MidEntries(ms')))
  {
    hide MidInv, MidEntries, Ledger.Create;
    InvLinks(ms);
    if k > 0 {
      CreateOutputsStep(ms, tx, k - 1);
      CreateStep(CreateOutputs(ms, tx, k - 1), TxOutput(TxIdOf(tx), k - 1), tx.outputs[k - 1], Child(ms.base));
    }
  }

  lemma {:induction false} ProvedIrrelevant(ms: Mid, proved: bool)
    requires MidInv(ms)
    ensures MidInv(ms.(proved := proved)) && MidEntries(ms.(proved := proved)) == MidEntries(ms)
    ensures forall e :: Available(ms.(proved := proved), e) <==> Available(ms, e)
  {
    var m := ms.(proved := proved);
    forall j | 0 <= j < |m.sces| ensures DiffOk(m, j) { assert DiffOk(ms, j); }
  }

  lemma {:induction false} ClaimIdsAre(inputs: seq<Input>)
    ensures ClaimIds(ClaimsOf(inputs)) == InputIds(inputs)
  {}

  lemma {:induction false} FreshOutputs(book: Book, tx: Tx)
    requires BookInv(book) && Spendable(book, ClaimsOf(tx.inputs)) && tx.inputs != []
    ensures forall j :: TxOutput(TxIdOf(tx), j) !in book.used
    ensures SpendAll(book, ClaimsOf(tx.inputs)[..|tx.inputs|]).used == book.used
    ensures ClaimsOf(tx.inputs)[..|tx.inputs|] == ClaimsOf(tx.inputs)
  {
    var claims := ClaimsOf(tx.inputs);
    SpendAllKeeps(book, claims);
    assert claims[..|tx.inputs|] == claims;
    assert claims[0].0 == TxIdOf(tx).parents[0];
    forall j ensures TxOutput(TxIdOf(tx), j) !in book.used { OutputsFresh(book, TxIdOf(tx), j, claims[0].0); }
  }

  /** Applying a transaction whose inputs validation lets through is one step of the plain ledger. */
  lemma {:induction false} ApplyTxStep(ms: Mid, tx: Tx)
    requires MidInv(ms) && BookInv(BookOf(MidEntries(ms))) && AllAvailable(ms, tx.inputs, 0) && tx.inputs != []
    ensures var ms' := ApplyTx(ms, tx);
            && MidInv(ms') && ms'.base == ms.base && ms'.proved == (ms.proved || IsCanaryProof(tx))
            && BookOf(MidEntries(ms'))
            == Transact(BookOf(MidEntries(ms)), ClaimsOf(tx.inputs), TxIdOf(tx), Child(ms.base))
  {
    var m := ms.(proved := ms.proved || IsCanaryProof(tx));
    InputsSpendable(ms, tx.inputs);
    FreshOutputs(BookOf(MidEntries(ms)), tx);
    ProvedIrrelevant(ms, m.proved);
    SpendInputsStep(m, tx, |tx.inputs|);
    CreateOutputsStep(SpendInputs(m, tx, |tx.inputs|), tx, |tx.outputs|);
  }
}
