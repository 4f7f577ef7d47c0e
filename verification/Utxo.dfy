/** The plain ledger: a map of unspent coins and the set of all output IDs ever used.  The accumulator
    and the per-block maps are shown to implement it. */
module Utxo {
  import opened Types

  datatype Coin = Coin(output: Output, maturity: nat) {
    function Value(): nat {
      output.value.Val()
    }
  }

  // ---- Totals ----

  ghost function Total(m: map<OutputID, Coin>): nat {
    if m == map[] then 0
    else
      var k :| k in m;
      m[k].Value() + Total(m - {k})
  }

  lemma {:induction false} TotalRemove(m: map<OutputID, Coin>, k: OutputID)
    requires k in m
    ensures Total(m) == m[k].Value() + Total(m - {k})
    decreases |m|
  {
    var j :| j in m && Total(m) == m[j].Value() + Total(m - {j});
    if j != k {
      TotalRemove(m - {j}, k);
      TotalRemove(m - {k}, j);
      assert m - {j} - {k} == m - {k} - {j};
    }
  }

  lemma {:induction false} TotalAdd(m: map<OutputID, Coin>, k: OutputID, c: Coin)
    requires k !in m
    ensures Total(m[k := c]) == Total(m) + c.Value()
  {
    TotalRemove(m[k := c], k);
    assert m[k := c] - {k} == m;
  }

  // ---- Coins listed in a sequence ----

  /** One line of a list of outputs: its ID (if it is an output at all), its coin, and whether it is live. */
  datatype Entry = Other | Entry(id: OutputID, coin: Coin, live: bool)

  /** The IDs listed. */
  function Ids(es: seq<Entry>): set<OutputID> {
    if es == [] then {}
    else
      var e := es[|es| - 1];
      if e.Entry? then Ids(es[..|es| - 1]) + {e.id} else Ids(es[..|es| - 1])
  }

  /** No ID is listed twice. */
  predicate UniqueIds(es: seq<Entry>) {
    es == [] || (UniqueIds(es[..|es| - 1]) && (es[|es| - 1].Entry? ==> es[|es| - 1].id !in Ids(es[..|es| - 1])))
  }

  /** The live coins of a list. */
  function Live(es: seq<Entry>): map<OutputID, Coin> {
    if es == [] then map[]
    else
      var e := es[|es| - 1];
      if e.Entry? && e.live then Live(es[..|es| - 1])[e.id := e.coin] else Live(es[..|es| - 1])
  }

  lemma {:induction false} LiveListed(es: seq<Entry>)
    ensures Live(es).Keys <= Ids(es)
  {
    if es != [] { LiveListed(es[..|es| - 1]); }
  }

  lemma {:induction false} Append(es: seq<Entry>, e: Entry)
    ensures Ids(es + [e]) == if e.Entry? then Ids(es) + {e.id} else Ids(es)
    ensures UniqueIds(es + [e]) <==> UniqueIds(es) && (e.Entry? ==> e.id !in Ids(es))
    ensures Live(es + [e]) == if e.Entry? && e.live then Live(es)[e.id := e.coin] else Live(es)
  {
    assert (es + [e])[..|es|] == es;
  }

  /** The IDs and the live coins are what the list says, entry by entry. */
  lemma {:induction false} LiveAt(es: seq<Entry>, i: nat)
    requires UniqueIds(es) && i < |es| && es[i].Entry?
    ensures es[i].id in Ids(es) && (es[i].id in Live(es) <==> es[i].live)
    ensures (es[i].live ==> Live(es)[es[i].id] == es[i].coin)
  {
    var front := es[..|es| - 1];
    LiveListed(front);
    if i < |front| { LiveAt(front, i); }
  }

  lemma {:induction false} ListedOnce(es: seq<Entry>, i: nat, j: nat)
    requires UniqueIds(es) && i < |es| && j < |es| && es[i].Entry? && es[j].Entry? && es[i].id == es[j].id
    ensures i == j
  {
    var front := es[..|es| - 1];
    if i < |front| { LiveAt(front, i); }
    if j < |front| { LiveAt(front, j); }
    if i < |front| && j < |front| { ListedOnce(front, i, j); }
  }

  /** Marking an entry as spent removes its coin. */
  lemma {:induction false} MarkSpent(es: seq<Entry>, i: nat, coin: Coin)
    requires UniqueIds(es) && i < |es| && es[i].Entry?
    ensures var fs := es[i := Entry(es[i].id, coin, false)];
            UniqueIds(fs) && Ids(fs) == Ids(es) && Live(fs) == Live(es) - {es[i].id}
    decreases |es|
  {
    var n := |es| - 1;
    var front, fs := es[..n], es[i := Entry(es[i].id, coin, false)];
    LiveListed(front);
    if i < n {
      MarkSpent(front, i, coin);
      LiveAt(front, i);
      assert fs[..n] == front[i := Entry(es[i].id, coin, false)];
    } else {
      assert fs[..n] == front;
      assert es[i].id !in Live(front);
    }
  }

  // ---- The plain ledger ----

  datatype Book = Book(coins: map<OutputID, Coin>, used: set<OutputID>)

  /** Unspent coins are known, and whatever a transaction created, it did by spending something. */
  ghost predicate BookInv(b: Book) {
    && b.coins.Keys <= b.used
    && (forall id :: id in b.used && id.TxOutput? ==>
          && id.tx.parents != []
          && (forall p :: p in id.tx.parents ==> p in b.used && p !in b.coins))
  }

  /** The inputs of a transaction, as it names them: IDs with the coins they claim to be. */
  type Claims = seq<(OutputID, Coin)>

  function ClaimIds(ins: Claims): seq<OutputID> {
    seq(|ins|, i requires 0 <= i < |ins| => ins[i].0)
  }

  /** Every input names a different unspent coin, with its exact value, address and birth height. */
  ghost predicate Spendable(b: Book, ins: Claims) {
    && (forall i, j :: 0 <= i < j < |ins| ==> ins[i].0 != ins[j].0)
    && (forall i :: 0 <= i < |ins| ==> ins[i].0 in b.coins && b.coins[ins[i].0] == ins[i].1)
  }

  ghost function Spend(b: Book, id: OutputID): Book {
    b.(coins := b.coins - {id})
  }

  ghost function SpendAll(b: Book, ins: Claims): Book {
    if ins == [] then b else Spend(SpendAll(b, ins[..|ins| - 1]), ins[|ins| - 1].0)
  }

  ghost function Create(b: Book, id: OutputID, coin: Coin): Book {
    Book(b.coins[id := coin], b.used + {id})
  }

  ghost function CreateAll(b: Book, tx: TxID, n: nat, maturity: nat): Book
    requires n <= |tx.outputs|
  {
    if n == 0 then b
    else Create(CreateAll(b, tx, n - 1, maturity), TxOutput(tx, n - 1), Coin(tx.outputs[n - 1], maturity))
  }

  /** One transaction: its inputs leave the book and its outputs enter it. */
  ghost function Transact(b: Book, ins: Claims, tx: TxID, maturity: nat): Book {
    CreateAll(SpendAll(b, ins), tx, |tx.outputs|, maturity)
  }

  function SumClaims(ins: Claims): nat {
    if ins == [] then 0 else SumClaims(ins[..|ins| - 1]) + ins[|ins| - 1].1.Value()
  }

  function SumOutputs(outs: seq<Output>, n: nat): nat
    requires n <= |outs|
  {
    if n == 0 then 0 else SumOutputs(outs, n - 1) + outs[n - 1].value.Val()
  }

  ghost function IdSet(ins: Claims): set<OutputID> {
    set i | 0 <= i < |ins| :: ins[i].0
  }

  lemma {:induction false} SpendableFront(b: Book, ins: Claims)
    requires Spendable(b, ins) && ins != []
    ensures var n := |ins| - 1;
            Spendable(b, ins[..n]) && ins[n].0 !in IdSet(ins[..n]) && IdSet(ins) == IdSet(ins[..n]) + {ins[n].0}
  {
    var n := |ins| - 1;
    forall i | 0 <= i < n ensures ins[..n][i] == ins[i] && ins[i].0 in IdSet(ins[..n]) { assert ins[..n][i] == ins[i]; }
  }

  lemma {:induction false} SpendAllKeeps(b: Book, ins: Claims)
    requires BookInv(b) && Spendable(b, ins)
    ensures SpendAll(b, ins) == Book(b.coins - IdSet(ins), b.used)
    ensures Total(b.coins - IdSet(ins)) + SumClaims(ins) == Total(b.coins)
    decreases |ins|
  {
    if ins == [] {
      assert b.coins - IdSet(ins) == b.coins;
    } else {
      var n := |ins| - 1;
      SpendableFront(b, ins);
      SpendAllKeeps(b, ins[..n]);
      TotalRemove(b.coins - IdSet(ins[..n]), ins[n].0);
      assert b.coins - IdSet(ins[..n]) - {ins[n].0} == b.coins - IdSet(ins);
    }
  }

  /** The outputs of a transaction that spends something unspent have never been used before. */
  lemma {:induction false} OutputsFresh(b: Book, tx: TxID, j: nat, p: OutputID)
    requires BookInv(b) && p in tx.parents && p in b.coins
    ensures TxOutput(tx, j) !in b.used
  {}

  /** What creating the first n outputs adds. */
  lemma {:induction false} CreateAllAdds(b: Book, tx: TxID, n: nat, maturity: nat)
    requires n <= |tx.outputs|
    ensures var b' := CreateAll(b, tx, n, maturity);
            && (forall id :: id in b'.used <==> id in b.used || (id.TxOutput? && id.tx == tx && id.index < n))
            && (forall id :: id in b'.coins <==> id in b.coins || (id.TxOutput? && id.tx == tx && id.index < n))
  {
    if n > 0 { CreateAllAdds(b, tx, n - 1, maturity); }
  }

  lemma {:induction false} CreateAllTotal(b: Book, tx: TxID, n: nat, maturity: nat)
    requires n <= |tx.outputs| && b.coins.Keys <= b.used && forall j :: TxOutput(tx, j) !in b.used
    ensures Total(CreateAll(b, tx, n, maturity).coins) == Total(b.coins) + SumOutputs(tx.outputs, n)
  {
    if n > 0 {
      CreateAllTotal(b, tx, n - 1, maturity);
      CreateAllAdds(b, tx, n - 1, maturity);
      TotalAdd(CreateAll(b, tx, n - 1, maturity).coins, TxOutput(tx, n - 1), Coin(tx.outputs[n - 1], maturity));
    }
  }

  lemma {:induction false} CreateAllKeeps(b: Book, tx: TxID, n: nat, maturity: nat)
    requires BookInv(b) && n <= |tx.outputs|
    requires tx.parents != [] && forall p :: p in tx.parents ==> p in b.used && p !in b.coins
    requires forall j :: TxOutput(tx, j) !in b.used
    ensures BookInv(CreateAll(b, tx, n, maturity))
  {
    CreateAllAdds(b, tx, n, maturity);
  }

  /** A transaction keeps the book in order, and moves exactly its inputs' worth to its outputs. */
  lemma {:induction false} TransactKeeps(b: Book, ins: Claims, tx: TxID, maturity: nat)
    requires BookInv(b) && Spendable(b, ins) && ins != [] && tx.parents == ClaimIds(ins)
    ensures var b' := Transact(b, ins, tx, maturity);
            && BookInv(b') && b.used <= b'.used
            && Total(b'.coins) + SumClaims(ins) == Total(b.coins) + SumOutputs(tx.outputs, |tx.outputs|)
            && SumClaims(ins) <= Total(b.coins)
            && IdSet(ins) <= b.coins.Keys && IdSet(ins) !! b'.coins.Keys
            && (b.used - b.coins.Keys) !! b'.coins.Keys
  {
    SpendAllKeeps(b, ins);
    assert ClaimIds(ins)[0] in tx.parents && ins[0].0 in b.coins;
    forall j ensures TxOutput(tx, j) !in b.used { OutputsFresh(b, tx, j, ins[0].0); }
    forall p | p in tx.parents
      ensures p in IdSet(ins)
    {
      var i :| 0 <= i < |ins| && ClaimIds(ins)[i] == p;
      assert ins[i].0 == p;
    }
    CreateAllKeeps(SpendAll(b, ins), tx, |tx.outputs|, maturity);
    CreateAllAdds(SpendAll(b, ins), tx, |tx.outputs|, maturity);
    CreateAllTotal(SpendAll(b, ins), tx, |tx.outputs|, maturity);
  }
}
