/** The transaction pool: a list, an index of it by ID, its weight, and a cached state that must agree with
    applying the list to the tip. */
module Pool {
  import opened Types
  import opened Ledger
  import E = Ephemerals

  /** What the pool needs of the ledger on the current tip: the empty block's state, validation and
      application of a transaction, its weight, and its form for the child height. */
  datatype Rules<!M> = Rules(start: M, valid: (M, Tx) -> bool, apply: (M, Tx) -> M, weight: Tx -> nat,
                             restamp: Tx -> Tx)

  /** The state after a list of transactions. */
  function Fold<M>(r: Rules<M>, txs: seq<Tx>): M {
    if txs == [] then r.start else r.apply(Fold(r, txs[..|txs| - 1]), txs[|txs| - 1])
  }

  /** Every transaction of the list is valid after those before it. */
  predicate PrefixesValid<M>(r: Rules<M>, txs: seq<Tx>) {
    txs == [] || (PrefixesValid(r, txs[..|txs| - 1]) && r.valid(Fold(r, txs[..|txs| - 1]), txs[|txs| - 1]))
  }

  function TotalWeight<M>(r: Rules<M>, txs: seq<Tx>): nat {
    if txs == [] then 0 else TotalWeight(r, txs[..|txs| - 1]) + r.weight(txs[|txs| - 1])
  }

  function IdsOf(txs: seq<Tx>): set<TxID> {
    set i | 0 <= i < |txs| :: TxIdOf(txs[i])
  }

  /** indices gives each ID's position in the list, and nothing else. */
  predicate Indices(indices: map<TxID, nat>, txs: seq<Tx>) {
    && (forall id :: id in indices ==> indices[id] < |txs| && TxIdOf(txs[indices[id]]) == id)
    && (forall i :: 0 <= i < |txs| ==> TxIdOf(txs[i]) in indices && indices[TxIdOf(txs[i])] == i)
  }

  lemma {:induction false} AppendFacts<M>(r: Rules<M>, txs: seq<Tx>, tx: Tx)
    ensures Fold(r, txs + [tx]) == r.apply(Fold(r, txs), tx)
    ensures PrefixesValid(r, txs + [tx]) <==> PrefixesValid(r, txs) && r.valid(Fold(r, txs), tx)
    ensures TotalWeight(r, txs + [tx]) == TotalWeight(r, txs) + r.weight(tx)
  {
    assert (txs + [tx])[..|txs|] == txs;
  }

  lemma {:induction false} AppendIndices(indices: map<TxID, nat>, txs: seq<Tx>, tx: Tx)
    requires Indices(indices, txs) && TxIdOf(tx) !in indices
    ensures Indices(indices[TxIdOf(tx) := |txs|], txs + [tx])
  {}

  /** The list kept when transactions are offered one after the other: those that are new and valid. */
  function Refilled<M>(r: Rules<M>, txs: seq<Tx>): seq<Tx> {
    if txs == [] then []
    else
      var kept, tx := Refilled(r, txs[..|txs| - 1]), txs[|txs| - 1];
      if TxIdOf(tx) in IdsOf(kept) || !r.valid(Fold(r, kept), tx) then kept else kept + [tx]
  }

  lemma {:induction false} PrefixValid<M>(r: Rules<M>, txs: seq<Tx>, k: nat)
    requires PrefixesValid(r, txs) && k <= |txs|
    ensures PrefixesValid(r, txs[..k]) && (k < |txs| ==> r.valid(Fold(r, txs[..k]), txs[k]))
    decreases |txs|
  {
    if k < |txs| {
      var front := txs[..|txs| - 1];
      if k < |front| {
        PrefixValid(r, front, k);
        assert front[..k] == txs[..k];
      }
    } else {
      assert txs[..k] == txs;
    }
  }

  /** A pool whose prefixes are valid and whose IDs differ refills to itself. */
  lemma {:induction false} RefillPrefix<M>(r: Rules<M>, indices: map<TxID, nat>, txs: seq<Tx>, k: nat)
    requires PrefixesValid(r, txs) && Indices(indices, txs) && k <= |txs|
    ensures Refilled(r, txs[..k]) == txs[..k]
  {
    if k > 0 {
      RefillPrefix(r, indices, txs, k - 1);
      PrefixValid(r, txs, k - 1);
      var front, tx := txs[..k - 1], txs[k - 1];
      assert txs[..k][..k - 1] == front;
      assert forall i :: 0 <= i < |front| ==> front[i] == txs[i];
      assert TxIdOf(tx) !in IdsOf(front);
      assert txs[..k] == front + [tx];
    }
  }

  // ---- Insertion of a set ----

  /** The list extended by the members of a set that it does not know, or nothing if one of them is
      invalid after what it follows. */
  function Extended<M>(r: Rules<M>, txs: seq<Tx>, more: seq<Tx>): Option<seq<Tx>> {
    if more == [] then Some(txs)
    else
      var e, tx := Extended(r, txs, more[..|more| - 1]), more[|more| - 1];
      if e.None? then None
      else if TxIdOf(tx) in IdsOf(e.value) then e
      else if r.valid(Fold(r, e.value), tx) then Some(e.value + [tx])
      else None
  }

  lemma {:induction false} ExtendedPrefix<M>(r: Rules<M>, txs: seq<Tx>, more: seq<Tx>, k: nat)
    requires k < |more|
    ensures Extended(r, txs, more[..k + 1]) ==
            var e := Extended(r, txs, more[..k]);
            if e.None? then None
            else if TxIdOf(more[k]) in IdsOf(e.value) then e
            else if r.valid(Fold(r, e.value), more[k]) then Some(e.value + [more[k]])
            else None
  {
    assert more[..k + 1][..k] == more[..k];
  }

  lemma {:induction false} NoneStays<M>(r: Rules<M>, txs: seq<Tx>, more: seq<Tx>, i: nat, j: nat)
    requires i <= j <= |more| && Extended(r, txs, more[..i]).None?
    ensures Extended(r, txs, more[..j]).None?
    decreases j
  {
    if i < j {
      NoneStays(r, txs, more, i, j - 1);
      ExtendedPrefix(r, txs, more, j - 1);
    }
  }

  predicate AllKnown(txs: seq<Tx>, more: seq<Tx>) {
    forall i :: 0 <= i < |more| ==> TxIdOf(more[i]) in IdsOf(txs)
  }

  datatype Outcome = Known | Refused | Added

  /** What becomes of a set offered to a pool that holds txs; rebased is the set with its proofs brought to
      the tip, if that is possible. */
  ghost function SetOutcome<M>(r: Rules<M>, txs: seq<Tx>, more: seq<Tx>, rebased: Option<seq<Tx>>): Outcome {
    if more != [] && AllKnown(txs, more) then Known
    else if rebased.None? || !E.EphemeralsOk(rebased.value) || !PrefixesValid(r, rebased.value) then Refused
    else if AllKnown(txs, rebased.value) then Known
    else if Extended(r, txs, rebased.value).None? then Refused
    else Added
  }

  // ---- Eviction ----

  const MAX_POOL_WEIGHT: nat := 10 * MAX_WEIGHT

  /** The fee per unit of weight, rounded down. */
  function Rate<M>(r: Rules<M>, tx: Tx): nat
    requires r.weight(tx) > 0
  {
    tx.fee.Val() / r.weight(tx)
  }

  predicate Weighty<M>(r: Rules<M>, txs: seq<Tx>) {
    forall i :: 0 <= i < |txs| ==> r.weight(txs[i]) > 0
  }

  method Cheapest<M>(r: Rules<M>, txs: seq<Tx>) returns (m: nat)
    requires txs != [] && Weighty(r, txs)
    ensures m < |txs| && forall i :: 0 <= i < |txs| ==> Rate(r, txs[m]) <= Rate(r, txs[i])
  {
    m := 0;
    for i := 1 to |txs|
      invariant m < |txs| && forall j :: 0 <= j < i ==> Rate(r, txs[m]) <= Rate(r, txs[j])
    {
      if Rate(r, txs[i]) < Rate(r, txs[m]) {
        m := i;
      }
    }
  }

  lemma {:induction false} WeightWithout<M>(r: Rules<M>, txs: seq<Tx>, m: nat)
    requires m < |txs|
    ensures TotalWeight(r, txs) == TotalWeight(r, txs[..m] + txs[m + 1..]) + r.weight(txs[m])
    decreases |txs|
  {
    var front, rest := txs[..|txs| - 1], txs[..m] + txs[m + 1..];
    if m < |front| {
      WeightWithout(r, front, m);
      assert rest[..|rest| - 1] == front[..m] + front[m + 1..];
    } else {
      assert rest == front;
    }
  }

  /** Nothing dropped pays more per weight than anything kept. */
  ghost predicate Sifted<M>(r: Rules<M>, dropped: seq<Tx>, kept: seq<Tx>) {
    && Weighty(r, dropped) && Weighty(r, kept)
    && forall i, j :: 0 <= i < |dropped| && 0 <= j < |kept| ==> Rate(r, dropped[i]) <= Rate(r, kept[j])
  }

  lemma {:induction false} DropStep<M>(r: Rules<M>, dropped: seq<Tx>, kept: seq<Tx>, m: nat)
    requires Sifted(r, dropped, kept) && m < |kept| && forall i :: 0 <= i < |kept| ==>
               Rate(r, kept[m]) <= Rate(r, kept[i])
    ensures Sifted(r, dropped + [kept[m]], kept[..m] + kept[m + 1..])
  {
    var ds, ks := dropped + [kept[m]], kept[..m] + kept[m + 1..];
    assert forall j :: 0 <= j < |ks| ==> ks[j] == kept[if j < m then j else j + 1];
    forall i, j | 0 <= i < |ds| && 0 <= j < |ks|
      ensures r.weight(ds[i]) > 0 && r.weight(ks[j]) > 0 && Rate(r, ds[i]) <= Rate(r, ks[j])
    {
      var k := if j < m then j else j + 1;
      assert ks[j] == kept[k] && Rate(r, kept[m]) <= Rate(r, kept[k]);
      if i < |dropped| { assert Rate(r, dropped[i]) <= Rate(r, kept[k]); }
    }
  }

  lemma {:induction false} Moved(dropped: seq<Tx>, kept: seq<Tx>, m: nat)
    requires m < |kept|
    ensures multiset(kept[..m] + kept[m + 1..]) + multiset(dropped + [kept[m]]) == multiset(kept) + multiset(dropped)
  {
    assert kept == kept[..m] + [kept[m]] + kept[m + 1..];
  }

  /** The chosen elements of a list, at increasing places. */
  ghost predicate Picked(txs: seq<Tx>, places: seq<nat>, kept: seq<Tx>) {
    && |places| == |kept|
    && (forall i :: 0 <= i < |places| ==> places[i] < |txs| && txs[places[i]] == kept[i])
    && forall i, j :: 0 <= i < j < |places| ==> places[i] < places[j]
  }

  lemma {:induction false} PickFewer(txs: seq<Tx>, places: seq<nat>, kept: seq<Tx>, m: nat)
    requires Picked(txs, places, kept) && m < |kept|
    ensures Picked(txs, places[..m] + places[m + 1..], kept[..m] + kept[m + 1..])
  {}

  /** What is kept is in order, and nothing that is dropped has a better rate. */
  ghost predicate Parted<M>(r: Rules<M>, txs: seq<Tx>, kept: seq<Tx>, dropped: seq<Tx>, places: seq<nat>) {
    Picked(txs, places, kept) && multiset(kept) + multiset(dropped) == multiset(txs) && Sifted(r, dropped, kept)
  }

  ghost predicate Evicted<M>(r: Rules<M>, txs: seq<Tx>, kept: seq<Tx>, dropped: seq<Tx>, places: seq<nat>) {
    Parted(r, txs, kept, dropped, places) && TotalWeight(r, kept) < MAX_POOL_WEIGHT * 3 / 4
  }

  lemma {:induction false} PartNone<M>(r: Rules<M>, txs: seq<Tx>)
    requires Weighty(r, txs)
    ensures Parted(r, txs, txs, [], seq(|txs|, i => i))
  {}

  lemma {:induction false} PartWeighs<M>(r: Rules<M>, txs: seq<Tx>, kept: seq<Tx>, dropped: seq<Tx>, places: seq<nat>)
    requires Parted(r, txs, kept, dropped, places)
    ensures Weighty(r, kept) && |places| == |kept|
  {}

  lemma {:induction false} PartMore<M>(r: Rules<M>, txs: seq<Tx>, kept: seq<Tx>, dropped: seq<Tx>, places: seq<nat>,
                                       m: nat)
    requires Parted(r, txs, kept, dropped, places) && m < |kept| && forall i :: 0 <= i < |kept| ==>
               Rate(r, kept[m]) <= Rate(r, kept[i])
    ensures Parted(r, txs, kept[..m] + kept[m + 1..], dropped + [kept[m]], places[..m] + places[m + 1..])
  {
    DropStep(r, dropped, kept, m);
    Moved(dropped, kept, m);
    PickFewer(txs, places, kept, m);
  }

  /** Drops the transactions with the lowest rates until three quarters of the limit are left. */
  method Evict<M>(r: Rules<M>, txs: seq<Tx>, weight: nat)
    returns (kept: seq<Tx>, left: nat, ghost dropped: seq<Tx>, ghost places: seq<nat>)
    requires Weighty(r, txs) && TotalWeight(r, txs) <= weight
    ensures TotalWeight(r, kept) < MAX_POOL_WEIGHT * 3 / 4
    ensures Evicted(r, txs, kept, dropped, places)
    ensures dropped != [] ==> left + r.weight(dropped[|dropped| - 1]) >= MAX_POOL_WEIGHT * 3 / 4
  {
    hide Parted, Rate;
    kept, left, dropped, places := txs, weight, [], seq(|txs|, i => i);
    PartNone(r, txs);
    while left >= MAX_POOL_WEIGHT * 3 / 4 && kept != []
      invariant TotalWeight(r, kept) <= left && Parted(r, txs, kept, dropped, places)
      invariant dropped != [] ==> left + r.weight(dropped[|dropped| - 1]) >= MAX_POOL_WEIGHT * 3 / 4
      decreases |kept|
    {
      PartWeighs(r, txs, kept, dropped, places);
      var m := Cheapest(r, kept);
      WeightWithout(r, kept, m);
      PartMore(r, txs, kept, dropped, places, m);
      left := left - r.weight(kept[m]);
      places := places[..m] + places[m + 1..];
      kept, dropped := kept[..m] + kept[m + 1..], dropped + [kept[m]];
    }
  }

  /** A pool below its limit is kept as it is, and a full one loses its cheapest transactions. */
  ghost predicate Lightened<M>(r: Rules<M>, txs: seq<Tx>, weight: nat, kept: seq<Tx>, dropped: seq<Tx>,
                               places: seq<nat>) {
    if weight < MAX_POOL_WEIGHT then kept == txs else Evicted(r, txs, kept, dropped, places)
  }

  method Lighten<M>(r: Rules<M>, txs: seq<Tx>, weight: nat)
    returns (kept: seq<Tx>, ghost dropped: seq<Tx>, ghost places: seq<nat>)
    requires Weighty(r, txs) && TotalWeight(r, txs) <= weight
    ensures weight < MAX_POOL_WEIGHT ==> kept == txs
    ensures Lightened(r, txs, weight, kept, dropped, places)
  {
    kept, dropped, places := txs, [], [];
    if weight >= MAX_POOL_WEIGHT {
      var left;
      kept, left, dropped, places := Evict(r, txs, weight);
    }
  }

  // ---- The pool ----

  function Restamped<M>(r: Rules<M>, txs: seq<Tx>): seq<Tx> {
    seq(|txs|, i requires 0 <= i < |txs| => r.restamp(txs[i]))
  }

  /** Deletes the transactions from position start on from the index. */
  method Unindex(now: map<TxID, nat>, txs: seq<Tx>, start: nat) returns (left: map<TxID, nat>)
    requires Indices(now, txs) && start <= |txs|
    ensures forall id :: id in left <==> id in now && now[id] < start
    ensures forall id :: id in left ==> left[id] == now[id]
  {
    left := now;
    for i := start to |txs|
      invariant forall id :: id in left <==> id in now && !(start <= now[id] < i)
      invariant forall id :: id in left ==> left[id] == now[id]
    {
      left := left - {TxIdOf(txs[i])};
    }
  }

  class Pool<M(!new)> {
    const rules: Rules<M>
    var txns: seq<Tx>
    var indices: map<TxID, nat>
    var ms: Option<M>
    var weight: nat

    /** Every prefix of the list is valid, indices and weight are those of the list, and the cached state,
        if there is one, is what applying the list to the tip gives. */
    ghost predicate Valid()
      reads this
    {
      && PrefixesValid(rules, txns) && Indices(indices, txns) && weight == TotalWeight(rules, txns)
      && (ms.Some? ==> ms.value == Fold(rules, txns))
    }

    constructor (rules: Rules<M>)
      ensures Valid() && this.rules == rules && txns == []
    {
      this.rules, txns, indices, ms, weight := rules, [], map[], None, 0;
    }

    /** Appends a new valid transaction. */
    method Append(tx: Tx)
      requires Valid() && ms.Some? && TxIdOf(tx) !in indices && rules.valid(ms.value, tx)
      modifies this
      ensures Valid() && ms.Some? && txns == old(txns) + [tx] && indices == old(indices)[TxIdOf(tx) := |old(txns)|]
    {
      AppendFacts(rules, txns, tx);
      AppendIndices(indices, txns, tx);
      ms := Some(rules.apply(ms.value, tx));
      indices := indices[TxIdOf(tx) := |txns|];
      weight := weight + rules.weight(tx);
      txns := txns + [tx];
    }

    /** Offers the transactions of a list to an empty pool. */
    method Refill(list: seq<Tx>)
      modifies this
      ensures Valid() && ms.Some? && txns == Refilled(rules, list)
    {
      txns, indices, ms, weight := [], map[], Some(rules.start), 0;
      for i := 0 to |list|
        invariant Valid() && ms.Some? && txns == Refilled(rules, list[..i])
      {
        assert list[..i + 1][..i] == list[..i];
        var tx := list[i];
        IndicesKnow(indices, txns, tx);
        if TxIdOf(tx) in indices || !rules.valid(ms.value, tx) {
          continue;
        }
        Append(tx);
      }
      assert list[..|list|] == list;
    }

    /** revalidatePool: the pool is left alone while its cached state holds and it is below the limit, and
        otherwise rebuilt, after eviction if it is too heavy. */
    method Revalidate() returns (ghost kept: seq<Tx>, ghost dropped: seq<Tx>, ghost places: seq<nat>)
      requires (ms.Some? ==> Valid()) && Weighty(rules, txns) && TotalWeight(rules, txns) <= weight
      modifies this
      ensures Valid() && ms.Some?
      ensures if old(ms).Some? && old(weight) < MAX_POOL_WEIGHT then txns == old(txns) && indices == old(indices)
              else
                && Lightened(rules, old(txns), old(weight), kept, dropped, places)
                && txns == Refilled(rules, Restamped(rules, kept))
    {
      kept, dropped, places := txns, [], [];
      if ms.None? || weight >= MAX_POOL_WEIGHT {
        var list;
        list, dropped, places := Lighten(rules, txns, weight);
        kept := list;
        Refill(Restamped(rules, list));
      }
    }

    /** checkTxnSet: checks what a set spends of itself, validates it on its own, and tells whether the pool
        knows all of it. */
    method CheckSet(more: seq<Tx>) returns (known: bool, ok: bool)
      requires Valid()
      ensures ok <==> E.EphemeralsOk(more) && PrefixesValid(rules, more)
      ensures ok ==> (known <==> AllKnown(txns, more))
    {
      ok := E.CheckEphemerals(more);
      if !ok {
        return false, false;
      }
      known, ok := ValidateSet(more);
    }

    method ValidateSet(more: seq<Tx>) returns (known: bool, ok: bool)
      requires Valid()
      ensures ok <==> PrefixesValid(rules, more)
      ensures ok ==> (known <==> AllKnown(txns, more))
    {
      known := true;
      var m := rules.start;
      for i := 0 to |more|
        invariant m == Fold(rules, more[..i]) && PrefixesValid(rules, more[..i])
        invariant known <==> AllKnown(txns, more[..i])
      {
        IndicesKnow(indices, txns, more[i]);
        assert more[..i + 1] == more[..i] + [more[i]];
        AppendFacts(rules, more[..i], more[i]);
        if TxIdOf(more[i]) !in indices {
          known := false;
        }
        KnownStep(txns, more, i);
        if !rules.valid(m, more[i]) {
          if PrefixesValid(rules, more) { PrefixValid(rules, more, i); }
          return known, false;
        }
        m := rules.apply(m, more[i]);
      }
      assert more[..|more|] == more;
      ok := true;
    }

    method AnnouncedBefore(more: seq<Tx>) returns (known: bool)
      requires Valid()
      ensures known <==> AllKnown(txns, more)
    {
      for i := 0 to |more|
        invariant forall j :: 0 <= j < i ==> TxIdOf(more[j]) in IdsOf(txns)
      {
        IndicesKnow(indices, txns, more[i]);
        if TxIdOf(more[i]) !in indices {
          return false;
        }
      }
      known := true;
    }

    /** Takes the last transactions out again and drops the cached state. */
    method Restore(start: nat, startWeight: nat, ghost was: map<TxID, nat>)
      requires Valid() && start <= |txns| && PrefixesValid(rules, txns[..start]) && Indices(was, txns[..start])
      requires startWeight == TotalWeight(rules, txns[..start])
      modifies this
      ensures Valid() && txns == old(txns)[..start] && indices == was && weight == startWeight && ms.None?
    {
      hide PrefixesValid, TotalWeight, Fold;
      indices := Unindex(indices, txns, start);
      RestoredIndex(old(indices), txns, start, was, indices);
      txns := txns[..start];
      weight := startWeight;
      ms := None;
    }

    /** The insertion loop of AddV2PoolTransactions: all unknown members of the set, or none. */
    method Insert(more: seq<Tx>) returns (ok: bool)
      requires Valid() && ms.Some?
      modifies this
      ensures Valid() && (ok <==> Extended(rules, old(txns), more).Some?)
      ensures ok ==> ms.Some? && Extended(rules, old(txns), more) == Some(txns)
      ensures !ok ==> txns == old(txns) && indices == old(indices) && weight == old(weight)
    {
      hide PrefixesValid, TotalWeight, Fold;
      var start, startWeight := |txns|, weight;
      for i := 0 to |more|
        invariant Valid() && ms.Some? && Extended(rules, old(txns), more[..i]) == Some(txns)
        invariant start <= |txns| && txns[..start] == old(txns)
      {
        ExtendedPrefix(rules, old(txns), more, i);
        IndicesKnow(indices, txns, more[i]);
        if TxIdOf(more[i]) in indices {
          continue;
        }
        if !rules.valid(ms.value, more[i]) {
          NoneStays(rules, old(txns), more, i + 1, |more|);
          assert more[..|more|] == more;
          Restore(start, startWeight, old(indices));
          return false;
        }
        Append(more[i]);
      }
      assert more[..|more|] == more;
      ok := true;
    }

    /** AddV2PoolTransactions on a valid pool: exactly one of three outcomes, and unless the set is added,
        the list, the indices and the weight are as before. */
    method AddSet(more: seq<Tx>, rebased: Option<seq<Tx>>) returns (o: Outcome)
      requires Valid() && ms.Some?
      modifies this
      ensures Valid() && o == SetOutcome(rules, old(txns), more, rebased)
      ensures o == Added ==> ms.Some? && Extended(rules, old(txns), rebased.value) == Some(txns)
      ensures o != Added ==> txns == old(txns) && indices == old(indices) && weight == old(weight)
    {
      if more != [] {
        var seen := AnnouncedBefore(more);
        if seen {
          return Known;
        }
      }
      if rebased.None? {
        return Refused;
      }
      var known, ok := CheckSet(rebased.value);
      if !ok {
        return Refused;
      }
      if known {
        return Known;
      }
      ok := Insert(rebased.value);
      o := if ok then Added else Refused;
    }

    /** AddV2PoolTransactions: the pool is revalidated, and to the list base that this leaves all unknown
        members of the set are added, or nothing.  While there is a cached state and the pool is below its
        limit, base is the list as it was; otherwise it is the refill of what eviction keeps. */
    method AddTransactions(more: seq<Tx>, rebased: Option<seq<Tx>>)
      returns (o: Outcome, ghost base: seq<Tx>, ghost kept: seq<Tx>, ghost dropped: seq<Tx>, ghost places: seq<nat>)
      requires (ms.Some? ==> Valid()) && Weighty(rules, txns) && TotalWeight(rules, txns) <= weight
      modifies this
      ensures Valid() && o == SetOutcome(rules, base, more, rebased)
      ensures if o == Added then ms.Some? && Extended(rules, base, rebased.value) == Some(txns) else txns == base
      ensures if old(ms).Some? && old(weight) < MAX_POOL_WEIGHT then base == old(txns)
              else
                && Lightened(rules, old(txns), old(weight), kept, dropped, places)
                && base == Refilled(rules, Restamped(rules, kept))
    {
      kept, dropped, places := Revalidate();
      base := txns;
      o := AddSet(more, rebased);
    }
  }

  lemma {:induction false} KnownStep(txs: seq<Tx>, more: seq<Tx>, i: nat)
    requires i < |more|
    ensures AllKnown(txs, more[..i + 1]) <==> AllKnown(txs, more[..i]) && TxIdOf(more[i]) in IdsOf(txs)
  {
    var a, b := more[..i], more[..i + 1];
    assert forall j :: 0 <= j < i ==> a[j] == b[j];
    assert b[i] == more[i];
  }

  lemma {:induction false} RestoredIndex(now: map<TxID, nat>, txs: seq<Tx>, start: nat, was: map<TxID, nat>,
                                         left: map<TxID, nat>)
    requires Indices(now, txs) && start <= |txs| && Indices(was, txs[..start])
    requires forall id :: id in left <==> id in now && now[id] < start
    requires forall id :: id in left ==> left[id] == now[id]
    ensures left == was
  {
    SameIndices(now, txs, start, was);
    assert left.Keys == was.Keys;
  }

  /** The positions before start are exactly those of the shorter list's index. */
  lemma {:induction false} SameIndices(now: map<TxID, nat>, txs: seq<Tx>, start: nat, was: map<TxID, nat>)
    requires Indices(now, txs) && start <= |txs| && Indices(was, txs[..start])
    ensures forall id :: id in was <==> id in now && now[id] < start
    ensures forall id :: id in was ==> was[id] == now[id]
  {
    var base := txs[..start];
    forall id | id in was
      ensures id in now && now[id] == was[id]
    {
      assert base[was[id]] == txs[was[id]];
    }
    forall id | id in now && now[id] < start
      ensures id in was
    {
      assert base[now[id]] == txs[now[id]];
    }
  }

  lemma {:induction false} IndicesKnow(indices: map<TxID, nat>, txs: seq<Tx>, tx: Tx)
    requires Indices(indices, txs)
    ensures TxIdOf(tx) in indices <==> TxIdOf(tx) in IdsOf(txs)
  {}
}
