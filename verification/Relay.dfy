/** The relay plan: a pool snapshot packed into standalone sets within the size of one request. */
module Relay {
  import opened Types
  import opened Ledger

  // ---- Sizes of sets of transactions ----

  /** The total size of the members of s below n. */
  function SizeTo(sizes: seq<nat>, s: set<nat>, n: nat): nat
    requires n <= |sizes|
  {
    if n == 0 then 0 else SizeTo(sizes, s, n - 1) + if n - 1 in s then sizes[n - 1] else 0
  }

  function Size(sizes: seq<nat>, s: set<nat>): nat {
    SizeTo(sizes, s, |sizes|)
  }

  lemma {:induction false} SizeAdd(sizes: seq<nat>, s: set<nat>, j: nat, n: nat)
    requires n <= |sizes| && j < |sizes| && j !in s
    ensures SizeTo(sizes, s + {j}, n) == SizeTo(sizes, s, n) + if j < n then sizes[j] else 0
  {
    if n > 0 { SizeAdd(sizes, s, j, n - 1); }
  }

  lemma {:induction false} SizeUnion(sizes: seq<nat>, s: set<nat>, t: set<nat>, n: nat)
    requires n <= |sizes| && s !! t
    ensures SizeTo(sizes, s + t, n) == SizeTo(sizes, s, n) + SizeTo(sizes, t, n)
  {
    if n > 0 { SizeUnion(sizes, s, t, n - 1); }
  }

  lemma {:induction false} SizeSubset(sizes: seq<nat>, s: set<nat>, t: set<nat>, n: nat)
    requires n <= |sizes| && s <= t
    ensures SizeTo(sizes, s, n) <= SizeTo(sizes, t, n)
  {
    if n > 0 { SizeSubset(sizes, s, t, n - 1); }
  }

  // ---- Ancestry in the pool ----

  type Parents = seq<seq<nat>>

  /** Parents come before their children. */
  predicate Ordered(parents: Parents) {
    forall i, k :: 0 <= i < |parents| && 0 <= k < |parents[i]| ==> parents[i][k] < i
  }

  predicate HasParents(parents: Parents, s: set<nat>, j: nat)
    requires j < |parents|
  {
    forall k :: 0 <= k < |parents[j]| ==> parents[j][k] in s
  }

  /** s holds the parents of all its members. */
  predicate Closed(parents: Parents, s: set<nat>) {
    forall j :: j in s ==> j < |parents| && HasParents(parents, s, j)
  }

  /** i with all its ancestors. */
  function Ancestors(parents: Parents, i: nat): set<nat>
    requires Ordered(parents) && i < |parents|
    decreases i, |parents[i]| + 1
  {
    {i} + AncestorsOf(parents, i, |parents[i]|)
  }

  function AncestorsOf(parents: Parents, i: nat, n: nat): set<nat>
    requires Ordered(parents) && i < |parents| && n <= |parents[i]|
    decreases i, n
  {
    if n == 0 then {} else AncestorsOf(parents, i, n - 1) + Ancestors(parents, parents[i][n - 1])
  }

  lemma {:induction false} AncestorsClosed(parents: Parents, i: nat)
    requires Ordered(parents) && i < |parents|
    ensures Closed(parents, Ancestors(parents, i)) && i in Ancestors(parents, i)
    decreases i, |parents[i]| + 1
  {
    AncestorsOfClosed(parents, i, |parents[i]|);
  }

  lemma {:induction false} AncestorsOfClosed(parents: Parents, i: nat, n: nat)
    requires Ordered(parents) && i < |parents| && n <= |parents[i]|
    ensures Closed(parents, AncestorsOf(parents, i, n)) && forall k :: 0 <= k < n ==>
              parents[i][k] in AncestorsOf(parents, i, n)
    decreases i, n
  {
    if n > 0 {
      AncestorsOfClosed(parents, i, n - 1);
      AncestorsClosed(parents, parents[i][n - 1]);
      ClosedUnion(parents, AncestorsOf(parents, i, n - 1), Ancestors(parents, parents[i][n - 1]));
    }
  }

  lemma {:induction false} ClosedUnion(parents: Parents, s: set<nat>, t: set<nat>)
    requires Closed(parents, s) && Closed(parents, t)
    ensures Closed(parents, s + t)
  {
    forall j | j in s + t
      ensures j < |parents| && HasParents(parents, s + t, j)
    {
      if j in s { assert HasParents(parents, s, j); } else { assert HasParents(parents, t, j); }
    }
  }

  /** The ancestors are the least closed set. */
  lemma {:induction false} AncestorsLeast(parents: Parents, i: nat, s: set<nat>)
    requires Ordered(parents) && i < |parents| && Closed(parents, s) && i in s
    ensures Ancestors(parents, i) <= s
    decreases i, |parents[i]| + 1
  {
    assert HasParents(parents, s, i);
    AncestorsOfLeast(parents, i, |parents[i]|, s);
  }

  lemma {:induction false} AncestorsOfLeast(parents: Parents, i: nat, n: nat, s: set<nat>)
    requires Ordered(parents) && i < |parents| && n <= |parents[i]| && Closed(parents, s)
    requires forall k :: 0 <= k < n ==> parents[i][k] in s
    ensures AncestorsOf(parents, i, n) <= s
    decreases i, n
  {
    if n > 0 {
      AncestorsOfLeast(parents, i, n - 1, s);
      AncestorsLeast(parents, parents[i][n - 1], s);
    }
  }

  // ---- The search ----

  /** Everything that the members of needed and i itself depend on is needed, packed or still on the stack. */
  ghost predicate Pending(parents: Parents, i: nat, needed: set<nat>, packed: set<nat>, stack: seq<nat>) {
    && (i in needed || i in packed || i in stack)
    && forall j :: j in needed ==> j < |parents| && forall k :: 0 <= k < |parents[j]| ==>
         parents[j][k] in needed || parents[j][k] in packed || parents[j][k] in stack
  }

  lemma {:induction false} PendingPop(parents: Parents, i: nat, needed: set<nat>, packed: set<nat>, stack: seq<nat>)
    requires Pending(parents, i, needed, packed, stack) && stack != []
    requires stack[|stack| - 1] in needed || stack[|stack| - 1] in packed
    ensures Pending(parents, i, needed, packed, stack[..|stack| - 1])
  {
    var j, rest := stack[|stack| - 1], stack[..|stack| - 1];
    assert stack == rest + [j];
  }

  lemma {:induction false} PendingPush(parents: Parents, i: nat, needed: set<nat>, packed: set<nat>, stack: seq<nat>)
    requires Pending(parents, i, needed, packed, stack) && stack != [] && stack[|stack| - 1] < |parents|
    ensures var j := stack[|stack| - 1]; Pending(parents, i, needed + {j}, packed, stack[..|stack| - 1] + parents[j])
  {
    var j, rest := stack[|stack| - 1], stack[..|stack| - 1];
    assert stack == rest + [j];
    forall k | 0 <= k < |parents[j]|
      ensures parents[j][k] in rest + parents[j]
    {
      assert (rest + parents[j])[|rest| + k] == parents[j][k];
    }
    assert forall x :: x in rest ==> x in rest + parents[j];
  }

  /** The ancestors of i that are not packed yet, and their size, unless that exceeds the limit. */
  method Search(sizes: seq<nat>, parents: Parents, packed: set<nat>, i: nat, limit: int)
    returns (needed: set<nat>, size: nat)
    requires |sizes| == |parents| && Ordered(parents) && i < |parents| && Closed(parents, packed)
    ensures needed <= Ancestors(parents, i) - packed && size == Size(sizes, needed)
    ensures size <= limit ==> needed == Ancestors(parents, i) - packed
  {
    ghost var all := Ancestors(parents, i);
    AncestorsClosed(parents, i);
    needed, size := {}, 0;
    var stack := [i];
    SizeEmpty(sizes, |sizes|);
    while |stack| > 0 && size <= limit
      invariant needed <= all - packed && size == Size(sizes, needed) && Pending(parents, i, needed, packed, stack)
      invariant forall x :: x in stack ==> x in all
      decreases |all - needed|, |stack|
    {
      var j := stack[|stack| - 1];
      assert j in stack && HasParents(parents, all, j);
      if j in packed || j in needed {
        PendingPop(parents, i, needed, packed, stack);
        stack := stack[..|stack| - 1];
        continue;
      }
      PendingPush(parents, i, needed, packed, stack);
      SizeAdd(sizes, needed, j, |sizes|);
      Shrinks(all, needed, j);
      needed := needed + {j};
      size := size + sizes[j];
      stack := stack[..|stack| - 1] + parents[j];
    }
    if size <= limit { Complete(parents, i, needed, packed); }
  }

  lemma {:induction false} Shrinks(all: set<nat>, needed: set<nat>, j: nat)
    requires j in all && j !in needed
    ensures |all - (needed + {j})| < |all - needed|
  {
    assert all - needed == (all - (needed + {j})) + {j};
  }

  lemma {:induction false} SizeEmpty(sizes: seq<nat>, n: nat)
    requires n <= |sizes|
    ensures SizeTo(sizes, {}, n) == 0
  {
    if n > 0 { SizeEmpty(sizes, n - 1); }
  }

  /** With nothing left on the stack, all ancestors are accounted for. */
  lemma {:induction false} Complete(parents: Parents, i: nat, needed: set<nat>, packed: set<nat>)
    requires Ordered(parents) && i < |parents| && Closed(parents, packed)
    requires needed <= Ancestors(parents, i) - packed && Pending(parents, i, needed, packed, [])
    ensures needed == Ancestors(parents, i) - packed
  {
    var s := needed + packed;
    forall j | j in s
      ensures j < |parents| && HasParents(parents, s, j)
    {
      if j in packed { assert HasParents(parents, packed, j); }
    }
    AncestorsLeast(parents, i, s);
  }

  // ---- Packets ----

  function Members(packet: seq<nat>): set<nat> {
    if packet == [] then {} else Members(packet[..|packet| - 1]) + {packet[|packet| - 1]}
  }

  /** Every transaction is listed once, with all its parents earlier in the packet. */
  predicate InOrder(parents: Parents, packet: seq<nat>) {
    packet == [] ||
    var front, j := packet[..|packet| - 1], packet[|packet| - 1];
    InOrder(parents, front) && j < |parents| && j !in Members(front) && HasParents(parents, Members(front), j)
  }

  lemma {:induction false} InOrderClosed(parents: Parents, packet: seq<nat>)
    requires InOrder(parents, packet)
    ensures Closed(parents, Members(packet))
  {
    if packet != [] {
      var front := packet[..|packet| - 1];
      InOrderClosed(parents, front);
      forall j | j in Members(packet)
        ensures j < |parents| && HasParents(parents, Members(packet), j)
      {
        if j in Members(front) { assert HasParents(parents, Members(front), j); }
      }
    }
  }

  /** The members of s below n, in ascending order. */
  function Listing(s: set<nat>, n: nat): seq<nat> {
    if n == 0 then [] else Listing(s, n - 1) + if n - 1 in s then [n - 1] else []
  }

  lemma {:induction false} AppendOne(parents: Parents, packet: seq<nat>, j: nat)
    ensures Members(packet + [j]) == Members(packet) + {j}
    ensures InOrder(parents, packet + [j]) <==>
              && InOrder(parents, packet) && j < |parents| && j !in Members(packet)
              && HasParents(parents, Members(packet), j)
  {
    assert (packet + [j])[..|packet|] == packet;
  }

  function Below(s: set<nat>, n: nat): set<nat> {
    set j | j in s && j < n
  }

  lemma {:induction false} ListedParents(parents: Parents, packed: set<nat>, needed: set<nat>, j: nat)
    requires Ordered(parents) && Closed(parents, needed + packed) && j in needed
    ensures j < |parents| && HasParents(parents, packed + Below(needed, j), j)
  {
    assert HasParents(parents, needed + packed, j);
  }

  lemma {:induction false} ListingNext(packet: seq<nat>, needed: set<nat>, n: nat)
    requires n > 0
    ensures packet + Listing(needed, n) == packet + Listing(needed, n - 1) + if n - 1 in needed then [n - 1] else []
    ensures Below(needed, n) == Below(needed, n - 1) + if n - 1 in needed then {n - 1} else {}
  {}

  /** Appending the missing ancestors in pool order keeps a packet in order. */
  lemma {:induction false} AppendListing(parents: Parents, packet: seq<nat>, needed: set<nat>, n: nat)
    requires Ordered(parents) && InOrder(parents, packet) && needed !! Members(packet)
    requires Closed(parents, needed + Members(packet))
    ensures Members(packet + Listing(needed, n)) == Members(packet) + Below(needed, n)
    ensures InOrder(parents, packet + Listing(needed, n))
  {
    hide InOrder, Closed;
    if n == 0 {
      assert packet + [] == packet;
    } else {
      AppendListing(parents, packet, needed, n - 1);
      ListingNext(packet, needed, n);
      AppendBelow(parents, packet + Listing(needed, n - 1), Members(packet), needed, n - 1);
    }
  }

  lemma {:induction false} AppendBelow(parents: Parents, so: seq<nat>, packed: set<nat>, needed: set<nat>, j: nat)
    requires Ordered(parents) && Closed(parents, needed + packed) && needed !! packed
    requires InOrder(parents, so) && Members(so) == packed + Below(needed, j)
    ensures var more := so + if j in needed then [j] else [];
            InOrder(parents, more) && Members(more) == packed + (Below(needed, j) + if j in needed then {j} else {})
  {
    if j in needed {
      ListedParents(parents, packed, needed, j);
      AppendOne(parents, so, j);
    } else {
      assert so + [] == so;
    }
  }

  /** The packets finished so far, and the open one with its size. */
  datatype Plan = Plan(sets: seq<seq<nat>>, packet: seq<nat>, bytes: nat)

  predicate PacketOk(sizes: seq<nat>, parents: Parents, limit: int, packet: seq<nat>) {
    InOrder(parents, packet) && (packet != [] ==> Size(sizes, Members(packet)) <= limit)
  }

  predicate PlanOk(sizes: seq<nat>, parents: Parents, limit: int, p: Plan) {
    && PacketOk(sizes, parents, limit, p.packet) && p.bytes == Size(sizes, Members(p.packet))
    && forall i :: 0 <= i < |p.sets| ==> p.sets[i] != [] && PacketOk(sizes, parents, limit, p.sets[i])
  }

  ghost predicate Offered(p: Plan, t: nat) {
    t in Members(p.packet) || exists i :: 0 <= i < |p.sets| && t in Members(p.sets[i])
  }

  predicate Fits(sizes: seq<nat>, parents: Parents, limit: int, t: nat)
    requires Ordered(parents) && t < |parents|
  {
    Size(sizes, Ancestors(parents, t)) <= limit
  }

  /** Whatever a packet within the limit holds fits with all its ancestors. */
  lemma {:induction false} PackedFits(sizes: seq<nat>, parents: Parents, limit: int, packet: seq<nat>, t: nat)
    requires |sizes| == |parents| && Ordered(parents) && PacketOk(sizes, parents, limit, packet) && t in Members(packet)
    ensures t < |parents| && Fits(sizes, parents, limit, t)
  {
    InOrderClosed(parents, packet);
    AncestorsLeast(parents, t, Members(packet));
    SizeSubset(sizes, Ancestors(parents, t), Members(packet), |sizes|);
  }

  lemma {:induction false} OfferedFits(sizes: seq<nat>, parents: Parents, limit: int, p: Plan, t: nat)
    requires |sizes| == |parents| && Ordered(parents) && PlanOk(sizes, parents, limit, p) && Offered(p, t)
    ensures t < |parents| && Fits(sizes, parents, limit, t)
  {
    if t in Members(p.packet) {
      PackedFits(sizes, parents, limit, p.packet, t);
    } else {
      var i :| 0 <= i < |p.sets| && t in Members(p.sets[i]);
      PackedFits(sizes, parents, limit, p.sets[i], t);
    }
  }

  /** The flush closure. */
  method Flush(p: Plan, ghost sizes: seq<nat>, ghost parents: Parents, ghost limit: int) returns (q: Plan)
    requires PlanOk(sizes, parents, limit, p)
    ensures PlanOk(sizes, parents, limit, q) && q.packet == []
    ensures q.sets == if p.packet == [] then p.sets else p.sets + [p.packet]
    ensures forall t :: Offered(p, t) <==> Offered(q, t)
  {
    SizeEmpty(sizes, |sizes|);
    q := Plan(if |p.packet| > 0 then p.sets + [p.packet] else p.sets, [], 0);
    forall t
      ensures Offered(p, t) <==> Offered(q, t)
    {
      if exists i :: 0 <= i < |p.sets| && t in Members(p.sets[i]) {
        var i :| 0 <= i < |p.sets| && t in Members(p.sets[i]);
        assert q.sets[i] == p.sets[i];
      }
      if p.packet != [] { assert q.sets[|p.sets|] == p.packet; }
    }
  }

  /** Takes the missing ancestors of i into the open packet. */
  method Take(p: Plan, needed: set<nat>, size: nat, i: nat, ghost sizes: seq<nat>, ghost parents: Parents,
              ghost limit: int)
    returns (q: Plan)
    requires |sizes| == |parents| && Ordered(parents) && i < |parents| && PlanOk(sizes, parents, limit, p)
    requires needed == Ancestors(parents, i) - Members(p.packet) && size == Size(sizes, needed)
    requires p.bytes + size <= limit
    ensures PlanOk(sizes, parents, limit, q) && Offered(q, i) && forall t :: Offered(p, t) ==> Offered(q, t)
  {
    InOrderClosed(parents, p.packet);
    AncestorsClosed(parents, i);
    ClosedUnion(parents, Ancestors(parents, i), Members(p.packet));
    assert needed + Members(p.packet) == Ancestors(parents, i) + Members(p.packet);
    AncestorsBelow(parents, i);
    AppendListing(parents, p.packet, needed, i + 1);
    assert Below(needed, i + 1) == needed;
    SizeUnion(sizes, needed, Members(p.packet), |sizes|);
    assert Members(p.packet) + needed == needed + Members(p.packet);
    q := Plan(p.sets, p.packet + Listing(needed, i + 1), p.bytes + size);
  }

  lemma {:induction false} AncestorsBelow(parents: Parents, i: nat)
    requires Ordered(parents) && i < |parents|
    ensures forall j :: j in Ancestors(parents, i) ==> j <= i
    decreases i, |parents[i]| + 1
  {
    AncestorsOfBelow(parents, i, |parents[i]|);
  }

  lemma {:induction false} AncestorsOfBelow(parents: Parents, i: nat, n: nat)
    requires Ordered(parents) && i < |parents| && n <= |parents[i]|
    ensures forall j :: j in AncestorsOf(parents, i, n) ==> j < i
    decreases i, n
  {
    if n > 0 {
      AncestorsOfBelow(parents, i, n - 1);
      AncestorsBelow(parents, parents[i][n - 1]);
    }
  }

  /** The retry loop for one transaction: it is packed with all its ancestors, in the open packet or in a
      new one, exactly if they fit. */
  method PackOne(p: Plan, i: nat, sizes: seq<nat>, parents: Parents, limit: int) returns (q: Plan)
    requires |sizes| == |parents| && Ordered(parents) && i < |parents| && PlanOk(sizes, parents, limit, p)
    ensures PlanOk(sizes, parents, limit, q) && (Offered(q, i) <==> Fits(sizes, parents, limit, i))
    ensures forall t :: Offered(p, t) ==> Offered(q, t)
  {
    q := p;
    SizeEmpty(sizes, |sizes|);
    while true
      invariant PlanOk(sizes, parents, limit, q) && forall t :: Offered(p, t) ==> Offered(q, t)
      decreases |q.packet|
    {
      InOrderClosed(parents, q.packet);
      var needed, size := Search(sizes, parents, Members(q.packet), i, limit);
      SizeSubset(sizes, needed, Ancestors(parents, i), |sizes|);
      if q.bytes + size > limit && |q.packet| > 0 {
        q := Flush(q, sizes, parents, limit);
        continue;
      } else if size > limit {
        if Offered(q, i) { OfferedFits(sizes, parents, limit, q, i); }
        break;
      }
      q := Take(q, needed, size, i, sizes, parents, limit);
      OfferedFits(sizes, parents, limit, q, i);
      break;
    }
  }

  // ---- Dependencies ----

  /** The outputs of the first n transactions, by ID. */
  ghost predicate OutputsKnown(txns: seq<Tx>, n: nat, outputs: map<OutputID, nat>)
    requires n <= |txns|
  {
    && (forall id :: id in outputs ==> outputs[id] < n && Creates(txns[outputs[id]], id))
    && (forall id, p :: 0 <= p < n && Creates(txns[p], id) ==> id in outputs)
  }

  /** An earlier transaction of the snapshot creates what this input spends. */
  ghost predicate Supplied(txns: seq<Tx>, n: nat, i: Input)
    requires n <= |txns|
  {
    exists p :: 0 <= p < n && Creates(txns[p], i.parent.id)
  }

  /** One of the first m inputs spends an unconfirmed output of tx. */
  ghost predicate Feeds(tx: Tx, inputs: seq<Input>, m: nat)
    requires m <= |inputs|
  {
    exists a :: 0 <= a < m && Unconfirmed(inputs[a]) && Creates(tx, inputs[a].parent.id)
  }

  /** One of ps creates what i spends. */
  ghost predicate Covered(txns: seq<Tx>, n: nat, ps: seq<nat>, i: Input)
    requires n <= |txns|
  {
    exists k :: 0 <= k < |ps| && ps[k] < n && Creates(txns[ps[k]], i.parent.id)
  }

  /** ps are exactly transactions before n that create unconfirmed parents of the first m inputs, all of
      which are covered. */
  ghost predicate ParentsFound(txns: seq<Tx>, n: nat, inputs: seq<Input>, m: nat, ps: seq<nat>)
    requires n <= |txns| && m <= |inputs|
  {
    && (forall k :: 0 <= k < |ps| ==> ps[k] < n && Feeds(txns[ps[k]], inputs, m))
    && (forall a :: 0 <= a < m && Unconfirmed(inputs[a]) ==> Covered(txns, n, ps, inputs[a]))
  }

  /** The parents of one transaction. */
  method FindParents(txns: seq<Tx>, n: nat, outputs: map<OutputID, nat>, inputs: seq<Input>)
    returns (ps: seq<nat>, ok: bool)
    requires n <= |txns| && OutputsKnown(txns, n, outputs)
    ensures ok ==> ParentsFound(txns, n, inputs, |inputs|, ps)
    ensures !ok ==> exists a :: 0 <= a < |inputs| && Unconfirmed(inputs[a]) && !Supplied(txns, n, inputs[a])
  {
    ps := [];
    for a := 0 to |inputs|
      invariant ParentsFound(txns, n, inputs, a, ps)
    {
      var i := inputs[a];
      if Unconfirmed(i) {
        if i.parent.id !in outputs {
          return ps, false;
        }
        FoundNext(txns, n, inputs, a, ps, outputs[i.parent.id]);
        ps := ps + [outputs[i.parent.id]];
      } else {
        FoundSkip(txns, n, inputs, a, ps);
      }
    }
    ok := true;
  }

  lemma {:induction false} FeedsMore(tx: Tx, inputs: seq<Input>, m: nat)
    requires m < |inputs| && Feeds(tx, inputs, m)
    ensures Feeds(tx, inputs, m + 1)
  {}

  lemma {:induction false} FoundSkip(txns: seq<Tx>, n: nat, inputs: seq<Input>, a: nat, ps: seq<nat>)
    requires n <= |txns| && a < |inputs| && ParentsFound(txns, n, inputs, a, ps) && !Unconfirmed(inputs[a])
    ensures ParentsFound(txns, n, inputs, a + 1, ps)
  {
    forall k | 0 <= k < |ps|
      ensures ps[k] < n && Feeds(txns[ps[k]], inputs, a + 1)
    {
      FeedsMore(txns[ps[k]], inputs, a);
    }
  }

  lemma {:induction false} CoveredMore(txns: seq<Tx>, n: nat, ps: seq<nat>, p: nat, i: Input)
    requires n <= |txns| && (Covered(txns, n, ps, i) || (p < n && Creates(txns[p], i.parent.id)))
    ensures Covered(txns, n, ps + [p], i)
  {
    var qs := ps + [p];
    if Covered(txns, n, ps, i) {
      var k :| 0 <= k < |ps| && ps[k] < n && Creates(txns[ps[k]], i.parent.id);
      assert qs[k] == ps[k];
    } else {
      assert qs[|ps|] == p;
    }
  }

  lemma {:induction false} FoundNext(txns: seq<Tx>, n: nat, inputs: seq<Input>, a: nat, ps: seq<nat>, p: nat)
    requires n <= |txns| && a < |inputs| && ParentsFound(txns, n, inputs, a, ps)
    requires Unconfirmed(inputs[a]) && p < n && Creates(txns[p], inputs[a].parent.id)
    ensures ParentsFound(txns, n, inputs, a + 1, ps + [p])
  {
    var qs := ps + [p];
    assert Feeds(txns[p], inputs, a + 1);
    forall k | 0 <= k < |qs|
      ensures qs[k] < n && Feeds(txns[qs[k]], inputs, a + 1)
    {
      if k < |ps| {
        assert qs[k] == ps[k];
        FeedsMore(txns[ps[k]], inputs, a);
      }
    }
    forall b | 0 <= b < a + 1 && Unconfirmed(inputs[b])
      ensures Covered(txns, n, qs, inputs[b])
    {
      CoveredMore(txns, n, ps, p, inputs[b]);
    }
  }

  method AddOutputs(txns: seq<Tx>, n: nat, outputs: map<OutputID, nat>) returns (more: map<OutputID, nat>)
    requires n < |txns| && OutputsKnown(txns, n, outputs)
    ensures OutputsKnown(txns, n + 1, more)
  {
    more := outputs;
    var id := TxIdOf(txns[n]);
    for j := 0 to |txns[n].outputs|
      invariant forall o :: o in more ==> more[o] <= n && Creates(txns[more[o]], o)
      invariant forall o :: o in outputs ==> o in more
      invariant forall k :: 0 <= k < j ==> TxOutput(id, k) in more
    {
      more := more[TxOutput(id, j) := n];
    }
  }

  /** Every transaction's parents, in the snapshot's order. */
  ghost predicate Dependencies(txns: seq<Tx>, parents: Parents) {
    && |parents| == |txns|
    && forall i :: 0 <= i < |txns| ==> ParentsFound(txns, i, txns[i].inputs, |txns[i].inputs|, parents[i])
  }

  ghost predicate AllSupplied(txns: seq<Tx>) {
    forall i, a :: 0 <= i < |txns| && 0 <= a < |txns[i].inputs| && Unconfirmed(txns[i].inputs[a]) ==>
          Supplied(txns, i, txns[i].inputs[a])
  }

  method FindDependencies(txns: seq<Tx>) returns (parents: Parents, ok: bool)
    ensures ok ==> Dependencies(txns, parents)
    ensures !ok ==> !AllSupplied(txns)
  {
    parents := [];
    var outputs: map<OutputID, nat> := map[];
    for i := 0 to |txns|
      invariant |parents| == i && OutputsKnown(txns, i, outputs)
      invariant forall j :: 0 <= j < i ==> ParentsFound(txns, j, txns[j].inputs, |txns[j].inputs|, parents[j])
    {
      var ps, found := FindParents(txns, i, outputs, txns[i].inputs);
      if !found {
        return parents, false;
      }
      parents := parents + [ps];
      outputs := AddOutputs(txns, i, outputs);
    }
    ok := true;
  }

  lemma {:induction false} DependenciesOrdered(txns: seq<Tx>, parents: Parents)
    requires Dependencies(txns, parents)
    ensures Ordered(parents) && AllSupplied(txns)
  {
    forall i, k | 0 <= i < |parents| && 0 <= k < |parents[i]|
      ensures parents[i][k] < i
    {
      assert ParentsFound(txns, i, txns[i].inputs, |txns[i].inputs|, parents[i]);
    }
    forall i, a | 0 <= i < |txns| && 0 <= a < |txns[i].inputs| && Unconfirmed(txns[i].inputs[a])
      ensures Supplied(txns, i, txns[i].inputs[a])
    {
      assert Covered(txns, i, parents[i], txns[i].inputs[a]);
    }
  }

  // ---- The plan ----

  ghost predicate InSome(packets: seq<seq<nat>>, t: nat) {
    exists p :: 0 <= p < |packets| && t in Members(packets[p])
  }

  /** The bytes of a request besides the transactions: chain index and count. */
  const REQUEST_OVERHEAD: int := 48

  /** qdayPoolRelayPlan: it fails only if an unconfirmed parent is missing from the snapshot.  Every packet is
      within the limit and lists each transaction once, after its unconfirmed parents; and a transaction is
      in some packet exactly if it fits into a request with all its ancestors. */
  method RelayPlan(txns: seq<Tx>, sizes: seq<nat>, maxRequest: int)
    returns (packets: seq<seq<nat>>, parents: Parents, ok: bool)
    requires |sizes| == |txns|
    ensures ok <==> AllSupplied(txns)
    ensures ok ==> Dependencies(txns, parents) && Ordered(parents)
    ensures ok ==> forall p :: 0 <= p < |packets| ==>
              && packets[p] != [] && InOrder(parents, packets[p])
              && Size(sizes, Members(packets[p])) + REQUEST_OVERHEAD <= maxRequest
    ensures ok ==> forall t :: 0 <= t < |txns| ==>
              (InSome(packets, t) <==> Fits(sizes, parents, maxRequest - REQUEST_OVERHEAD, t))
  {
    var limit := maxRequest - REQUEST_OVERHEAD;
    packets := [];
    parents, ok := FindDependencies(txns);
    if !ok {
      return;
    }
    DependenciesOrdered(txns, parents);
    var plan := Plan([], [], 0);
    SizeEmpty(sizes, |sizes|);
    for i := 0 to |txns|
      invariant PlanOk(sizes, parents, limit, plan)
      invariant forall t :: 0 <= t < i && Fits(sizes, parents, limit, t) ==> Offered(plan, t)
    {
      plan := PackOne(plan, i, sizes, parents, limit);
    }
    plan := Flush(plan, sizes, parents, limit);
    packets := plan.sets;
    forall t | 0 <= t < |txns| && Offered(plan, t)
      ensures Fits(sizes, parents, limit, t)
    {
      OfferedFits(sizes, parents, limit, plan, t);
    }
    forall p | 0 <= p < |packets|
      ensures PacketOk(sizes, parents, limit, packets[p]) && packets[p] != []
    {
      assert plan.sets[p] == packets[p];
    }
  }
}
