/** Spend policies: their addresses, and what it takes to satisfy them. */
module Policy {
  import opened Types

  /** Signature schemes and the hash lock, as predicates and a function of their arguments. */
  datatype Crypto = Crypto(ed: (seq<byte>, TxID, seq<byte>) -> bool,
                           slh: (seq<byte>, TxID, seq<seq<byte>>) -> bool,
                           sha: seq<byte> -> seq<byte>)

  /** A reserve signature occupies this many 32-byte preimages. */
  const CHUNKS: nat := 246

  const MAX_POLICIES: nat := 1024

  // ---- Addresses ----

  /** The opaque form of a policy: the same address without the semantics. */
  function MakeOpaque(p: Types.Policy): Types.Policy
    decreases p, 1
  {
    if p.Opaque? then p else Opaque(AddressOf(p))
  }

  /** The address of a policy hides every sub-policy behind its own address. */
  function AddressOf(p: Types.Policy): Address
    decreases p, 0
  {
    match p
    case Legacy(uc) => UnlockRoot(uc)
    case Threshold(n, of) => PolicyHash(Threshold(n, HideAll(of)))
    case _ => PolicyHash(p)
  }

  function HideAll(of: seq<Types.Policy>): (r: seq<Types.Policy>)
    ensures |r| == |of| && forall i :: 0 <= i < |of| ==> r[i] == MakeOpaque(of[i])
    decreases of
  {
    seq(|of|, i requires 0 <= i < |of| => MakeOpaque(of[i]))
  }

  /** q is p with any number of proper sub-policies, at any depth, in opaque form. */
  predicate Hides(p: Types.Policy, q: Types.Policy)
    decreases p
  {
    || p == q
    || (&& p.Threshold? && q.Threshold? && p.n == q.n && |p.of| == |q.of|
        && forall i :: 0 <= i < |p.of| ==> q.of[i] == MakeOpaque(p.of[i]) || Hides(p.of[i], q.of[i]))
  }

  /** Hiding sub-policies keeps the address. */
  lemma {:induction false} HidesKeepsAddress(p: Types.Policy, q: Types.Policy)
    requires Hides(p, q)
    ensures AddressOf(p) == AddressOf(q) && (p.Opaque? <==> q.Opaque?) && MakeOpaque(p) == MakeOpaque(q)
    decreases p
  {
    if p != q {
      forall i | 0 <= i < |p.of|
        ensures MakeOpaque(p.of[i]) == MakeOpaque(q.of[i])
      {
        if q.of[i] != MakeOpaque(p.of[i]) { HidesKeepsAddress(p.of[i], q.of[i]); }
      }
      assert HideAll(p.of) == HideAll(q.of);
    }
  }

  // ---- Verification ----

  /** What is being spent against: the parent height, the median timestamp and the signed hash. */
  datatype Context = Context(crypto: Crypto, height: nat, median: int, sigHash: TxID)

  /** The witnesses not consumed yet, and the number of sub-policies seen. */
  datatype Rest = Rest(sigs: seq<seq<byte>>, preimages: seq<seq<byte>>, total: nat)

  /** Satisfies p with the next witnesses of r, or fails. */
  function Consume(c: Context, p: Types.Policy, r: Rest): Option<Rest>
    decreases p, 1, 0
  {
    match p
    case Above(h) => if c.height >= h then Some(r) else None
    case After(t) => if c.median > t then Some(r) else None
    case PublicKey(k) =>
      if |r.sigs| > 0 && c.crypto.ed(k, c.sigHash, r.sigs[0]) then Some(r.(sigs := r.sigs[1..])) else None
    case Slhdsa(k) =>
      if |r.preimages| < CHUNKS || !c.crypto.slh(k, c.sigHash, r.preimages[..CHUNKS]) then None
      else Some(r.(preimages := r.preimages[CHUNKS..]))
    case HashLock(d) =>
      if |r.preimages| > 0 && c.crypto.sha(r.preimages[0]) == d then Some(r.(preimages := r.preimages[1..])) else None
    case Threshold(n, of) =>
      var total := r.total + |of|;
      if total > MAX_POLICIES || |of| > 255 then None else ConsumeAll(c, of, n, 0, r.(total := total))
    case Opaque(_) => None
    case Legacy(uc) => if c.height >= uc.timelock then ConsumeKeys(c, uc.keys, uc.required, r) else None
  }

  /** The sub-policies of a threshold: opaque ones are skipped, exactly n others must be satisfied. */
  function ConsumeAll(c: Context, of: seq<Types.Policy>, n: nat, satisfied: nat, r: Rest): Option<Rest>
    decreases of, 0, |of|
  {
    if of == [] then (if satisfied == n then Some(r) else None)
    else if of[0].Legacy? then None
    else if of[0].Opaque? then ConsumeAll(c, of[1..], n, satisfied, r)
    else if satisfied == n then None
    else
      var next := Consume(c, of[0], r);
      if next.None? then None else ConsumeAll(c, of[1..], n, satisfied + 1, next.value)
  }

  /** The keys of legacy unlock conditions, tried in order. */
  function ConsumeKeys(c: Context, keys: seq<UnlockKey>, required: nat, r: Rest): Option<Rest> {
    if keys == [] || required == 0 || required > |keys| || required > |r.sigs| then
      if required == 0 then Some(r) else None
    else if keys[0].algorithm.Entropy? then None
    else if keys[0].algorithm.Ed25519? && !c.crypto.ed(keys[0].key, c.sigHash, r.sigs[0]) then
      ConsumeKeys(c, keys[1..], required, r)
    else ConsumeKeys(c, keys[1..], required - 1, r.(sigs := r.sigs[1..]))
  }

  /** Verify: p is satisfied with nothing left over. */
  predicate Satisfied(c: Context, p: Types.Policy, sigs: seq<seq<byte>>, preimages: seq<seq<byte>>) {
    var r := Consume(c, p, Rest(sigs, preimages, 0));
    r.Some? && r.value.sigs == [] && r.value.preimages == []
  }

  /** SpendPolicy.Verify's closures: the witnesses are consumed from the front of two slices while the
      policy is walked. */
  class Verifier {
    const c: Context
    var sigs: seq<seq<byte>>
    var preimages: seq<seq<byte>>
    var total: nat

    constructor (c: Context, sigs: seq<seq<byte>>, preimages: seq<seq<byte>>)
      ensures this.c == c && Left() == Rest(sigs, preimages, 0)
    {
      this.c, this.sigs, this.preimages, this.total := c, sigs, preimages, 0;
    }

    function Left(): Rest
      reads this
    {
      Rest(sigs, preimages, total)
    }

    method Walk(p: Types.Policy) returns (ok: bool)
      modifies this
      ensures ok <==> Consume(c, p, old(Left())).Some?
      ensures ok ==> Consume(c, p, old(Left())) == Some(Left())
      decreases p, 1, 0
    {
      match p
      case Above(h) => ok := c.height >= h;
      case After(t) => ok := c.median > t;
      case PublicKey(k) =>
        ok := |sigs| > 0 && c.crypto.ed(k, c.sigHash, sigs[0]);
        if |sigs| > 0 { sigs := sigs[1..]; }
      case Slhdsa(k) =>
        if |preimages| < CHUNKS || !c.crypto.slh(k, c.sigHash, preimages[..CHUNKS]) {
          return false;
        }
        preimages := preimages[CHUNKS..];
        ok := true;
      case HashLock(d) =>
        ok := |preimages| > 0 && c.crypto.sha(preimages[0]) == d;
        if |preimages| > 0 { preimages := preimages[1..]; }
      case Threshold(n, of) =>
        total := total + |of|;
        if total > MAX_POLICIES || |of| > 255 {
          return false;
        }
        ok := WalkAll(of, n);
      case Opaque(_) => ok := false;
      case Legacy(uc) =>
        if c.height < uc.timelock {
          return false;
        }
        ok := WalkKeys(uc);
    }

    method WalkAll(of: seq<Types.Policy>, n: nat) returns (ok: bool)
      modifies this
      ensures ok <==> ConsumeAll(c, of, n, 0, old(Left())).Some?
      ensures ok ==> ConsumeAll(c, of, n, 0, old(Left())) == Some(Left())
      decreases of, 1, 1
    {
      var satisfied := 0;
      assert of[0..] == of;
      for i := 0 to |of|
        invariant ConsumeAll(c, of, n, 0, old(Left())) == ConsumeAll(c, of[i..], n, satisfied, Left())
      {
        assert of[i..][0] == of[i] && of[i..][1..] == of[i + 1..];
        if of[i].Legacy? {
          return false;
        } else if of[i].Opaque? {
          continue;
        } else if satisfied == n {
          return false;
        }
        var sub := Walk(of[i]);
        if !sub {
          return false;
        }
        satisfied := satisfied + 1;
      }
      ok := satisfied == n;
    }

    method WalkKeys(uc: UnlockConditions) returns (ok: bool)
      modifies this
      ensures ok <==> ConsumeKeys(c, uc.keys, uc.required, old(Left())).Some?
      ensures ok ==> ConsumeKeys(c, uc.keys, uc.required, old(Left())) == Some(Left())
    {
      var required: nat := uc.required;
      var keys := uc.keys;
      var i: nat := 0;
      assert keys[0..] == keys;
      while i < |keys|
        invariant i <= |keys|
        invariant ConsumeKeys(c, keys, uc.required, old(Left())) == ConsumeKeys(c, keys[i..], required, Left())
        decreases |keys| - i
      {
        assert keys[i..][0] == keys[i] && keys[i..][1..] == keys[i + 1..];
        if required == 0 || required > |keys[i..]| || required > |sigs| {
          break;
        }
        match keys[i].algorithm {
          case Entropy => return false;
          case Ed25519 =>
            if c.crypto.ed(keys[i].key, c.sigHash, sigs[0]) {
              sigs := sigs[1..];
              required := required - 1;
            }
          case Unknown =>
            sigs := sigs[1..];
            required := required - 1;
        }
        i := i + 1;
      }
      ok := required == 0;
    }
  }

  method Verify(c: Context, p: Types.Policy, sigs: seq<seq<byte>>, preimages: seq<seq<byte>>) returns (ok: bool)
    ensures ok <==> Satisfied(c, p, sigs, preimages)
  {
    var v := new Verifier(c, sigs, preimages);
    ok := v.Walk(p);
    ok := ok && v.sigs == [] && v.preimages == [];
  }
}
