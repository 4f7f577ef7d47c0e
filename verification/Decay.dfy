/** Consensus parameters and the protocol decay of output values after activation. */
module Decay {
  import opened Currency

  /** The immutable parameters of a QDAY network; canaryOk says that the canary decodes to a point
      other than the identity. */
  datatype RawParams = Params(rulesVersion: nat, domainSet: bool, canaryOk: bool, reward: Currency, proofFee: Currency,
                              miningBlocks: u64, premine: Currency, shieldBlocks: u64, decayBlocks: u64, decayStep: u64,
                              activationDelay: u64, defendBits: nat, v1Height: u64)

  /** Siacoins(500_000), in base units of 10^-24. */
  const PREMINE: nat := 500_000_000_000_000_000_000_000_000_000

  /** The parameters that a network may have.  Everything it can ever issue fits in a Currency. */
  predicate Validate(p: RawParams) {
    && p.rulesVersion == 2 && p.premine.Val() == PREMINE
    && p.domainSet && p.reward.Val() != 0 && p.proofFee.Val() != 0
    && 0 < p.miningBlocks <= 10_000_000 && 0 < p.shieldBlocks <= 10_000_000 && 0 < p.decayBlocks <= 10_000_000
    && p.decayStep != 0 && p.decayBlocks % p.decayStep == 0
    && 0 < p.activationDelay <= 100_000 && p.defendBits <= 32
    && p.reward.Val() * p.miningBlocks + PREMINE < LIMIT
    && p.canaryOk
  }

  /** The parameters of a network that has been set up. */
  type Params = p: RawParams | Validate(p)
    witness Params(2, true, true, Currency(1, 0), Currency(1, 0), 1,
                   Currency(PREMINE % WORD, PREMINE / WORD), 1, 1, 1, 1, 0, 0)

  /** QdayParams.Validate, with the overflow flags of the 128-bit operations. */
  method CheckParams(p: RawParams) returns (ok: bool)
    ensures ok <==> Validate(p)
  {
    var expected := Currency(PREMINE % WORD, PREMINE / WORD);
    if p.premine.Val() == expected.Val() { ValUnique(p.premine, expected); }
    if p.rulesVersion != 2 || p.premine != expected || !p.domainSet || p.reward == ZERO || p.proofFee == ZERO
       || p.miningBlocks == 0 || p.shieldBlocks == 0 || p.decayBlocks == 0
       || p.decayStep == 0 || p.activationDelay == 0 {
      return false;
    }
    if p.miningBlocks > 10_000_000 || p.shieldBlocks > 10_000_000 || p.decayBlocks > 10_000_000
       || p.decayBlocks % p.decayStep != 0 || p.activationDelay > 100_000 || p.defendBits > 32 {
      return false;
    }
    var (emission, overflow) := Mul64WithOverflow(p.reward, p.miningBlocks);
    if overflow {
      return false;
    }
    ok := !AddWithOverflow(emission, p.premine).1 && p.canaryOk;
  }

  predicate Active(qdayHeight: nat, height: nat) {
    qdayHeight != 0 && height >= qdayHeight
  }

  function Max(a: nat, b: nat): nat {
    if a < b then b else a
  }

  /** QdayValue: the spendable part of value v, born at maturity, at the given height. */
  function QdayValue(p: Params, qdayHeight: nat, v: Currency, maturity: nat, height: nat): (r: Currency)
    ensures r.Val() == v.Val() * Remaining(p, qdayHeight, maturity, height) / p.decayBlocks
  {
    FullValue(v.Val(), p.decayBlocks);
    if !Active(qdayHeight, height) then v
    else
      var start := Max(qdayHeight, maturity);
      if height <= start || height - start <= p.shieldBlocks then v
      else
        AgeFits(height - start - p.shieldBlocks, p.decayStep);
        var age := (height - start - p.shieldBlocks) / p.decayStep * p.decayStep;
        if age >= p.decayBlocks then ZERO
        else
          var remaining := p.decayBlocks - age;
          SplitDivision(v.Val(), p.decayBlocks, remaining);
          var q := QuoRem64(v, p.decayBlocks).0;
          var r := Sub(v, MulBy(q, p.decayBlocks));
          Add(MulBy(q, remaining), QuoRem64(MulBy(r, remaining), p.decayBlocks).0)
  }

  /** The number of decay blocks still to run: all of them until the shield ends, then fewer by whole
      steps, and none once the age reaches the decay period. */
  function Remaining(p: Params, qdayHeight: nat, maturity: nat, height: nat): (n: nat)
    ensures n <= p.decayBlocks
  {
    var past := height - Max(qdayHeight, maturity) - p.shieldBlocks;
    if !Active(qdayHeight, height) || past <= 0 then p.decayBlocks
    else
      AgeFits(past, p.decayStep);
      var age := past / p.decayStep * p.decayStep;
      if age >= p.decayBlocks then 0 else p.decayBlocks - age
  }

  lemma {:induction false} AgeFits(x: nat, step: nat)
    requires step > 0
    ensures 0 <= x / step * step <= x
  {}

  lemma {:induction false} FullValue(v: nat, d: nat)
    requires d > 0
    ensures v * d / d == v && v * 0 / d == 0
  {
    DivUnique(v * d, d, v, 0);
  }

  lemma {:induction false} SplitParts(v: nat, d: nat, n: nat, q: nat, r: nat, x: nat, y: nat)
    requires 0 < d && n <= d && q * d + r == v && x * d + y == r * n && y < d
    ensures (q * n + x) * d + y == v * n && q * n + x <= v
  {
    assert (q * n + x) * d + y == (q * d + r) * n;
    MulMonotone(n, d, v);
    if q * n + x > v {
      MulMonotone(v + 1, q * n + x, d);
      assert false;
    }
  }

  lemma {:induction false} DivMod(a: nat, d: nat)
    requires d > 0
    ensures 0 <= a / d && 0 <= a % d < d && (a / d) * d + a % d == a
  {}

  lemma {:induction false} SmallProduct(r: nat, d: nat, n: nat)
    requires r < d <= 10_000_000 && n <= d
    ensures r * n < LIMIT
  {
    MulMonotone(r, 10_000_000, n);
  }

  /** Quotient and remainder avoid multiplication overflow: the parts fit, and add up to the whole. */
  lemma {:induction false} SplitDivision(v: nat, d: nat, n: nat)
    requires v < LIMIT && 0 < d <= 10_000_000 && n <= d
    ensures (v / d) * d + v % d == v && (v % d) * n < LIMIT
    ensures 0 <= (v / d) * n <= (v / d) * n + (v % d) * n / d == v * n / d <= v
  {
    DivMod(v, d);
    SmallProduct(v % d, d, n);
    DivMod((v % d) * n, d);
    SplitParts(v, d, n, v / d, v % d, (v % d) * n / d, (v % d) * n % d);
    DivUnique(v * n, d, (v / d) * n + (v % d) * n / d, (v % d) * n % d);
  }

  lemma {:induction false} FloorMonotone(a: nat, b: nat, d: nat)
    requires d > 0 && a <= b
    ensures a / d <= b / d
  {
    DivMod(a, d);
    DivMod(b, d);
    if a / d > b / d {
      MulMonotone(b / d + 1, a / d, d);
      assert false;
    }
  }

  /** With time the rest to run only shrinks. */
  lemma {:induction false} RemainingShrinks(p: Params, qdayHeight: nat, maturity: nat, h1: nat, h2: nat)
    requires h1 <= h2
    ensures Remaining(p, qdayHeight, maturity, h2) <= Remaining(p, qdayHeight, maturity, h1)
  {
    var from := Max(qdayHeight, maturity) + p.shieldBlocks;
    if Active(qdayHeight, h1) && h1 > from {
      FloorMonotone(h1 - from, h2 - from, p.decayStep);
      MulMonotone((h1 - from) / p.decayStep, (h2 - from) / p.decayStep, p.decayStep);
    }
  }

  lemma {:induction false} ScaledMonotone(v: nat, n: nat, m: nat, d: nat)
    requires d > 0 && n <= m <= d
    ensures v * n / d <= v * m / d <= v
  {
    MulMonotone(n, m, v);
    MulMonotone(m, d, v);
    FloorMonotone(v * n, v * m, d);
    FloorMonotone(v * m, v * d, d);
    FullValue(v, d);
  }

  /** A value never recovers, and never exceeds its nominal amount. */
  lemma {:induction false} ValueNonIncreasing(p: Params, qdayHeight: nat, v: Currency, maturity: nat, h1: nat, h2: nat)
    requires h1 <= h2
    ensures QdayValue(p, qdayHeight, v, maturity, h2).Val() <= QdayValue(p, qdayHeight, v, maturity, h1).Val()
    ensures QdayValue(p, qdayHeight, v, maturity, h1).Val() <= v.Val()
  {
    RemainingShrinks(p, qdayHeight, maturity, h1, h2);
    ScaledMonotone(v.Val(), Remaining(p, qdayHeight, maturity, h2), Remaining(p, qdayHeight, maturity, h1),
                   p.decayBlocks);
  }

  /** Nothing is left exactly when the decay period has run out after the shield, and the whole is left
      exactly until the first decay step after it. */
  lemma {:induction false} RemainingBounds(p: Params, qdayHeight: nat, maturity: nat, height: nat)
    ensures var past := height - Max(qdayHeight, maturity) - p.shieldBlocks;
            var left := Remaining(p, qdayHeight, maturity, height);
            && (left == 0 <==> Active(qdayHeight, height) && past >= p.decayBlocks)
            && (left == p.decayBlocks <==> !Active(qdayHeight, height) || past < p.decayStep)
  {
    var past := height - Max(qdayHeight, maturity) - p.shieldBlocks;
    if Active(qdayHeight, height) && past > 0 {
      var step, d := p.decayStep, p.decayBlocks;
      DivMod(past, step);
      DivMod(d, step);
      AgeFits(past, step);
      if past >= d {
        FloorMonotone(d, past, step);
        MulMonotone(d / step, past / step, step);
      }
      if past >= step {
        FloorMonotone(step, past, step);
        DivUnique(step, step, 1, 0);
        MulMonotone(1, past / step, step);
      } else {
        DivUnique(past, step, 0, past);
      }
    }
  }

  /** The nominal and the spendable total of outputs with the same birth height. */
  function Nominal(parts: seq<Currency>): nat {
    if parts == [] then 0 else Nominal(parts[..|parts| - 1]) + parts[|parts| - 1].Val()
  }

  function Spendable(p: Params, qdayHeight: nat, parts: seq<Currency>, maturity: nat, height: nat): nat {
    if parts == [] then 0
    else
      var last := QdayValue(p, qdayHeight, parts[|parts| - 1], maturity, height);
      Spendable(p, qdayHeight, parts[..|parts| - 1], maturity, height) + last.Val()
  }

  lemma {:induction false} PartsScaled(p: Params, qdayHeight: nat, parts: seq<Currency>, maturity: nat, height: nat)
    ensures Spendable(p, qdayHeight, parts, maturity, height)
         <= Nominal(parts) * Remaining(p, qdayHeight, maturity, height) / p.decayBlocks
  {
    var n, d := Remaining(p, qdayHeight, maturity, height), p.decayBlocks;
    if parts == [] {
      DivMod(0, d);
    } else {
      var front, last := parts[..|parts| - 1], parts[|parts| - 1];
      PartsScaled(p, qdayHeight, front, maturity, height);
      ScaledAdd(Nominal(front), last.Val(), Nominal(parts), n, d);
    }
  }

  /** Splitting a value over any number of outputs of the same birth never raises the spendable total. */
  lemma {:induction false} SplitNeverGains(p: Params, qdayHeight: nat, parts: seq<Currency>, whole: Currency,
                                           maturity: nat, height: nat)
    requires Nominal(parts) == whole.Val()
    ensures Spendable(p, qdayHeight, parts, maturity, height) <= QdayValue(p, qdayHeight, whole, maturity, height).Val()
  {
    PartsScaled(p, qdayHeight, parts, maturity, height);
  }

  lemma {:induction false} ScaledAdd(a: nat, b: nat, w: nat, n: nat, d: nat)
    requires d > 0 && a + b == w
    ensures a * n / d + b * n / d <= w * n / d
  {
    assert w * n == a * n + b * n;
    FloorsAdd(a * n, b * n, d);
  }

  lemma {:induction false} FloorsAdd(x: nat, y: nat, d: nat)
    requires d > 0
    ensures x / d + y / d <= (x + y) / d
  {
    DivMod(x, d);
    DivMod(y, d);
    DivMod(x + y, d);
    var s := x / d + y / d;
    assert s * d <= x + y;
    if s > (x + y) / d {
      MulMonotone((x + y) / d + 1, s, d);
      assert false;
    }
  }
}
