/** Native hybrid policies and atomic swaps. */
module Swap {
  import opened Types
  import opened Policy

  predicate AllZero(b: seq<byte>) {
    forall i :: 0 <= i < |b| ==> b[i] == 0
  }

  predicate ValidKeys(k: Keys) {
    !AllZero(k.classical) && !AllZero(k.reserve)
  }

  function NativePolicy(k: Keys): Types.Policy {
    Threshold(2, [PublicKey(k.classical), Slhdsa(k.reserve)])
  }

  datatype AtomicSwap = AtomicSwap(recipient: Keys, refund: Keys, secretHash: seq<byte>, refundHeight: nat)

  predicate ValidSwap(s: AtomicSwap) {
    ValidKeys(s.recipient) && ValidKeys(s.refund) && !AllZero(s.secretHash) && s.refundHeight != 0
  }

  function ClaimBranch(s: AtomicSwap): Types.Policy {
    Threshold(3, [PublicKey(s.recipient.classical), Slhdsa(s.recipient.reserve), HashLock(s.secretHash)])
  }

  function RefundBranch(s: AtomicSwap): Types.Policy {
    Threshold(3, [PublicKey(s.refund.classical), Slhdsa(s.refund.reserve), Above(s.refundHeight)])
  }

  function FullPolicy(s: AtomicSwap): Types.Policy {
    Threshold(1, [ClaimBranch(s), RefundBranch(s)])
  }

  function ClaimPolicy(s: AtomicSwap): Types.Policy {
    Threshold(1, [ClaimBranch(s), MakeOpaque(RefundBranch(s))])
  }

  function RefundPolicy(s: AtomicSwap): Types.Policy {
    Threshold(1, [MakeOpaque(ClaimBranch(s)), RefundBranch(s)])
  }

  predicate IsNative(p: Types.Policy) {
    p.Threshold? && p.n == 2 && |p.of| == 2 && p.of[0].PublicKey? && p.of[1].Slhdsa?
  }

  predicate IsLock(p: Types.Policy) {
    (p.HashLock? && !AllZero(p.digest)) || (p.Above? && p.height != 0)
  }

  predicate IsHybridBranch(p: Types.Policy) {
    p.Threshold? && p.n == 3 && |p.of| == 3 && p.of[0].PublicKey? && p.of[1].Slhdsa? && IsLock(p.of[2])
  }

  /** Exactly one revealed hybrid claim or refund branch and one opaque sibling. */
  predicate IsSwapSpend(p: Types.Policy) {
    && p.Threshold? && p.n == 1 && |p.of| == 2 && (p.of[0].Opaque? != p.of[1].Opaque?)
    && IsHybridBranch(if p.of[0].Opaque? then p.of[1] else p.of[0])
  }

  /** The full, claim and refund policies of a swap share one address. */
  lemma {:induction false} SwapAddresses(s: AtomicSwap)
    ensures AddressOf(ClaimPolicy(s)) == AddressOf(FullPolicy(s)) == AddressOf(RefundPolicy(s))
  {
    assert Hides(ClaimBranch(s), ClaimBranch(s)) && Hides(RefundBranch(s), RefundBranch(s));
    assert Hides(FullPolicy(s), ClaimPolicy(s));
    assert Hides(FullPolicy(s), RefundPolicy(s));
    HidesKeepsAddress(FullPolicy(s), ClaimPolicy(s));
    HidesKeepsAddress(FullPolicy(s), RefundPolicy(s));
  }

  /** Both keys of k have signed: one signature and one reserve signature, followed by more. */
  predicate HybridSigned(c: Context, k: Keys, sigs: seq<seq<byte>>, preimages: seq<seq<byte>>, more: nat) {
    && |sigs| == 1 && c.crypto.ed(k.classical, c.sigHash, sigs[0])
    && |preimages| == CHUNKS + more && c.crypto.slh(k.reserve, c.sigHash, preimages[..CHUNKS])
  }

  predicate Claims(c: Context, s: AtomicSwap, sigs: seq<seq<byte>>, preimages: seq<seq<byte>>) {
    HybridSigned(c, s.recipient, sigs, preimages, 1) && c.crypto.sha(preimages[CHUNKS]) == s.secretHash
  }

  predicate Refunds(c: Context, s: AtomicSwap, sigs: seq<seq<byte>>, preimages: seq<seq<byte>>) {
    HybridSigned(c, s.refund, sigs, preimages, 0) && c.height >= s.refundHeight
  }

  /** What satisfying a hybrid branch with a lock consumes. */
  function BranchRest(c: Context, k: Keys, lock: Types.Policy, r: Rest): Option<Rest> {
    if |r.sigs| > 0 && c.crypto.ed(k.classical, c.sigHash, r.sigs[0]) &&
       |r.preimages| >= CHUNKS && c.crypto.slh(k.reserve, c.sigHash, r.preimages[..CHUNKS])
    then Consume(c, lock, Rest(r.sigs[1..], r.preimages[CHUNKS..], r.total + 3))
    else None
  }

  lemma {:induction false} BranchConsumes(c: Context, k: Keys, lock: Types.Policy, r: Rest)
    requires (lock.HashLock? || lock.Above?) && r.total + 3 <= MAX_POLICIES
    ensures Consume(c, Threshold(3, [PublicKey(k.classical), Slhdsa(k.reserve), lock]), r) == BranchRest(c, k, lock, r)
  {
    var a, b := PublicKey(k.classical), Slhdsa(k.reserve);
    var r0 := r.(total := r.total + 3);
    assert [a, b, lock][1..] == [b, lock] && [b, lock][1..] == [lock] && [lock][1..] == [];
    assert Consume(c, Threshold(3, [a, b, lock]), r) == ConsumeAll(c, [a, b, lock], 3, 0, r0);
    if Consume(c, a, r0).Some? {
      var r1 := Consume(c, a, r0).value;
      assert ConsumeAll(c, [a, b, lock], 3, 0, r0) == ConsumeAll(c, [b, lock], 3, 1, r1);
      if Consume(c, b, r1).Some? {
        var r2 := Consume(c, b, r1).value;
        assert ConsumeAll(c, [b, lock], 3, 1, r1) == ConsumeAll(c, [lock], 3, 2, r2);
        if Consume(c, lock, r2).Some? {
          assert ConsumeAll(c, [lock], 3, 2, r2) == ConsumeAll(c, [], 3, 3, Consume(c, lock, r2).value);
        }
      }
    }
  }

  // ---- What an accepted spend of a swap's address carries ----

  /** A policy that hashes like p and can be satisfied inside a threshold is p itself, if p is a leaf. */
  lemma {:induction false} LeafRevealed(q: Types.Policy, p: Types.Policy)
    requires p.PublicKey? || p.Slhdsa? || p.HashLock? || p.Above?
    requires MakeOpaque(q) == MakeOpaque(p) && !q.Opaque?
    ensures q == p
  {}

  /** All sub-policies of a satisfied n-of-n threshold are revealed. */
  lemma {:induction false} AllRevealed(c: Context, of: seq<Types.Policy>, n: nat, satisfied: nat, r: Rest)
    requires ConsumeAll(c, of, n, satisfied, r).Some?
    ensures satisfied <= n <= satisfied + |of|
    ensures n == satisfied + |of| ==> forall i :: 0 <= i < |of| ==> !of[i].Opaque?
    decreases |of|
  {
    if of != [] && !of[0].Legacy? {
      if of[0].Opaque? {
        AllRevealed(c, of[1..], n, satisfied, r);
      } else if satisfied != n {
        AllRevealed(c, of[1..], n, satisfied + 1, Consume(c, of[0], r).value);
        assert forall i :: 0 < i < |of| ==> of[i] == of[1..][i - 1];
      }
    }
  }

  /** A satisfied branch that hashes like a hybrid branch is that branch. */
  lemma {:induction false} BranchRevealed(c: Context, q: Types.Policy, k: Keys, lock: Types.Policy, r: Rest)
    requires lock.HashLock? || lock.Above?
    requires MakeOpaque(q) == MakeOpaque(Threshold(3, [PublicKey(k.classical), Slhdsa(k.reserve), lock]))
    requires !q.Opaque? && Consume(c, q, r).Some?
    ensures q == Threshold(3, [PublicKey(k.classical), Slhdsa(k.reserve), lock])
  {
    var of := [PublicKey(k.classical), Slhdsa(k.reserve), lock];
    assert q.Threshold? && q.n == 3 && |q.of| == 3;
    AllRevealed(c, q.of, 3, 0, r.(total := r.total + 3));
    var qs := HideAll(q.of);
    var ps := HideAll(of);
    assert qs == ps;
    forall i | 0 <= i < 3
      ensures q.of[i] == of[i]
    {
      assert qs[i] == ps[i];
      LeafRevealed(q.of[i], of[i]);
    }
  }

  /** Any policy that is accepted for a swap's address is the swap's claim or its refund policy. */
  lemma {:induction false} SwapRevealed(c: Context, s: AtomicSwap, p: Types.Policy, r: Rest)
    requires AddressOf(p) == AddressOf(FullPolicy(s)) && Consume(c, p, r).Some?
    ensures p == ClaimPolicy(s) || p == RefundPolicy(s)
  {
    var branches := [ClaimBranch(s), RefundBranch(s)];
    assert p.Threshold? && p.n == 1 && |p.of| == 2;
    var qs := HideAll(p.of);
    var ps := HideAll(branches);
    assert qs == ps && qs[0] == ps[0] && qs[1] == ps[1];
    var r0 := r.(total := r.total + 2);
    assert Consume(c, p, r) == ConsumeAll(c, p.of, 1, 0, r0);
    var tail := p.of[1..];
    assert tail == [p.of[1]] && tail[1..] == [];
    if p.of[0].Opaque? {
      assert ConsumeAll(c, p.of, 1, 0, r0) == ConsumeAll(c, tail, 1, 0, r0);
      AllRevealed(c, tail, 1, 0, r0);
      BranchRevealed(c, p.of[1], s.refund, Above(s.refundHeight), r0);
    } else {
      BranchRevealed(c, p.of[0], s.recipient, HashLock(s.secretHash), r0);
      var r1 := Consume(c, p.of[0], r0).value;
      assert ConsumeAll(c, p.of, 1, 0, r0) == ConsumeAll(c, tail, 1, 1, r1);
      assert p.of[1].Opaque?;
    }
    assert p.of == [p.of[0], p.of[1]];
  }

  /** The claim policy is satisfied exactly by both recipient signatures and the secret. */
  lemma {:induction false} ClaimIff(c: Context, s: AtomicSwap, sigs: seq<seq<byte>>, preimages: seq<seq<byte>>)
    ensures Satisfied(c, ClaimPolicy(s), sigs, preimages) <==> Claims(c, s, sigs, preimages)
  {
    var r := Rest(sigs, preimages, 2);
    var hidden := MakeOpaque(RefundBranch(s));
    assert [ClaimBranch(s), hidden][1..] == [hidden] && [hidden][1..] == [];
    BranchConsumes(c, s.recipient, HashLock(s.secretHash), r);
    var out := Consume(c, ClaimBranch(s), r);
    assert Consume(c, ClaimPolicy(s), Rest(sigs, preimages, 0)) == ConsumeAll(c, [ClaimBranch(s), hidden], 1, 0, r);
    if out.Some? {
      assert ConsumeAll(c, [ClaimBranch(s), hidden], 1, 0, r) == ConsumeAll(c, [hidden], 1, 1, out.value)
          == ConsumeAll(c, [], 1, 1, out.value);
      assert preimages[CHUNKS..][0] == preimages[CHUNKS];
    }
  }

  /** The refund policy is satisfied exactly by both sender signatures from the refund height on. */
  lemma {:induction false} RefundIff(c: Context, s: AtomicSwap, sigs: seq<seq<byte>>, preimages: seq<seq<byte>>)
    ensures Satisfied(c, RefundPolicy(s), sigs, preimages) <==> Refunds(c, s, sigs, preimages)
  {
    var r := Rest(sigs, preimages, 2);
    var hidden := MakeOpaque(ClaimBranch(s));
    assert [hidden, RefundBranch(s)][1..] == [RefundBranch(s)] && [RefundBranch(s)][1..] == [];
    BranchConsumes(c, s.refund, Above(s.refundHeight), r);
    var out := Consume(c, RefundBranch(s), r);
    assert Consume(c, RefundPolicy(s), Rest(sigs, preimages, 0)) == ConsumeAll(c, [hidden, RefundBranch(s)], 1, 0, r)
        == ConsumeAll(c, [RefundBranch(s)], 1, 0, r);
    if out.Some? {
      assert ConsumeAll(c, [RefundBranch(s)], 1, 0, r) == ConsumeAll(c, [], 1, 1, out.value);
    }
  }

  /** A spend of a swap's address is accepted exactly when it reveals the claim branch with both recipient
      signatures and a preimage of the secret hash, or the refund branch with both sender signatures at
      or above the refund height; nothing is left over. */
  lemma {:induction false} SwapSpendIff(c: Context, s: AtomicSwap, p: Types.Policy, sigs: seq<seq<byte>>,
                                        preimages: seq<seq<byte>>)
    ensures AddressOf(p) == AddressOf(FullPolicy(s)) && Satisfied(c, p, sigs, preimages)
       <==> || (p == ClaimPolicy(s) && Claims(c, s, sigs, preimages))
            || (p == RefundPolicy(s) && Refunds(c, s, sigs, preimages))
  {
    SwapAddresses(s);
    ClaimIff(c, s, sigs, preimages);
    RefundIff(c, s, sigs, preimages);
    if AddressOf(p) == AddressOf(FullPolicy(s)) && Satisfied(c, p, sigs, preimages) {
      SwapRevealed(c, s, p, Rest(sigs, preimages, 0));
    }
  }

  /** Both spending policies of a valid swap have the shape that consensus admits. */
  lemma {:induction false} SwapAdmitted(s: AtomicSwap)
    requires ValidSwap(s)
    ensures IsSwapSpend(ClaimPolicy(s)) && IsSwapSpend(RefundPolicy(s)) && !IsSwapSpend(FullPolicy(s))
  {}

  /** A spend of a native address is accepted exactly with both keys' signatures. */
  lemma {:induction false} NativeSpendIff(c: Context, k: Keys, p: Types.Policy, sigs: seq<seq<byte>>,
                                          preimages: seq<seq<byte>>)
    ensures AddressOf(p) == AddressOf(NativePolicy(k)) && Satisfied(c, p, sigs, preimages)
       <==> p == NativePolicy(k) && HybridSigned(c, k, sigs, preimages, 0)
  {
    var a, b := PublicKey(k.classical), Slhdsa(k.reserve);
    var r := Rest(sigs, preimages, 0);
    var r0 := Rest(sigs, preimages, 2);
    assert [a, b][1..] == [b] && [b][1..] == [];
    assert Consume(c, NativePolicy(k), r) == ConsumeAll(c, [a, b], 2, 0, r0);
    if Consume(c, a, r0).Some? {
      var r1 := Consume(c, a, r0).value;
      assert ConsumeAll(c, [a, b], 2, 0, r0) == ConsumeAll(c, [b], 2, 1, r1);
      if Consume(c, b, r1).Some? {
        assert ConsumeAll(c, [b], 2, 1, r1) == ConsumeAll(c, [], 2, 2, Consume(c, b, r1).value);
      }
    }
    if AddressOf(p) == AddressOf(NativePolicy(k)) && Satisfied(c, p, sigs, preimages) {
      NativeRevealed(c, k, p, r);
    }
  }

  lemma {:induction false} NativeRevealed(c: Context, k: Keys, p: Types.Policy, r: Rest)
    requires AddressOf(p) == AddressOf(NativePolicy(k)) && Consume(c, p, r).Some?
    ensures p == NativePolicy(k)
  {
    var of := [PublicKey(k.classical), Slhdsa(k.reserve)];
    assert p.Threshold? && p.n == 2 && |p.of| == 2;
    AllRevealed(c, p.of, 2, 0, r.(total := r.total + 2));
    var qs := HideAll(p.of);
    var ps := HideAll(of);
    assert qs == ps;
    forall i | 0 <= i < 2
      ensures p.of[i] == of[i]
    {
      assert qs[i] == ps[i];
      LeafRevealed(p.of[i], of[i]);
    }
  }
}
