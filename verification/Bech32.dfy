/** Bech32m addresses (BIP 350): the checksum, the text form of an address and its parser.  Checksum states
    are 30-bit and symbols 5-bit natural numbers. */
module Bech32 {
  import opened Bits
  import opened Radix
  import Currency

  /** The width of a symbol and of a state, and the bits of a state that are not shifted out in a step. */
  const WIDTH: nat := 5
  const STATE_BITS: nat := 30
  const TOP: nat := 25

  // ---- Exclusive or ----

  lemma {:induction false} XorId(x: nat)
    ensures Xor(x, 0) == x && Xor(0, x) == x
  {
    if x > 0 { XorId(x / 2); }
  }

  lemma {:induction false} XorAssoc(x: nat, y: nat, z: nat)
    ensures Xor(Xor(x, y), z) == Xor(x, Xor(y, z))
    decreases x
  {
    hide Xor;
    if x == 0 {
      XorId(y);
      XorId(Xor(y, z));
    } else {
      XorAssoc(x / 2, y / 2, z / 2);
      AssocLeft(x, y, z);
      AssocRight(x, y, z);
      Halves(Xor(Xor(x, y), z), Xor(x, Xor(y, z)), x % 2, y % 2, z % 2, Xor(Xor(x / 2, y / 2), z / 2));
    }
  }

  lemma {:induction false} AssocLeft(x: nat, y: nat, z: nat)
    ensures Xor(Xor(x, y), z) / 2 == Xor(Xor(x / 2, y / 2), z / 2)
    ensures Xor(Xor(x, y), z) % 2 == ((x % 2 + y % 2) % 2 + z % 2) % 2
  {
    XorHalf(x, y);
    XorHalf(Xor(x, y), z);
  }

  lemma {:induction false} AssocRight(x: nat, y: nat, z: nat)
    ensures Xor(x, Xor(y, z)) / 2 == Xor(x / 2, Xor(y / 2, z / 2))
    ensures Xor(x, Xor(y, z)) % 2 == (x % 2 + (y % 2 + z % 2) % 2) % 2
  {
    XorHalf(y, z);
    XorHalf(x, Xor(y, z));
  }

  lemma {:induction false} Halves(l: nat, r: nat, a: nat, b: nat, c: nat, half: nat)
    requires a < 2 && b < 2 && c < 2 && l / 2 == half && r / 2 == half
    requires l % 2 == ((a + b) % 2 + c) % 2 && r % 2 == (a + (b + c) % 2) % 2
    ensures l == r
  {}

  lemma {:induction false} XorHalf(x: nat, y: nat)
    ensures Xor(x, y) / 2 == Xor(x / 2, y / 2) && Xor(x, y) % 2 == (x % 2 + y % 2) % 2
  {}

  lemma {:induction false} XorCancel(x: nat, y: nat, z: nat)
    requires Xor(x, y) == Xor(x, z)
    ensures y == z
  {
    XorAssoc(x, x, y);
    XorAssoc(x, x, z);
    XorZero(x, x);
    XorId(y);
    XorId(z);
  }

  /** High and low parts are added separately. */
  lemma {:induction false} XorParts(a: nat, l: nat, b: nat, m: nat, n: nat)
    requires l < Pow2(n) && m < Pow2(n)
    ensures Xor(Shl(a, n) + l, Shl(b, n) + m) == Shl(Xor(a, b), n) + Xor(l, m) && Xor(l, m) < Pow2(n)
  {
    hide Xor;
    if n == 0 {
      XorId(0);
    } else {
      XorParts(a, l / 2, b, m / 2, n - 1);
      XorHalf(l, m);
      XorHalf(Shl(a, n) + l, Shl(b, n) + m);
      assert (Shl(a, n) + l) / 2 == Shl(a, n - 1) + l / 2 && (Shl(b, n) + m) / 2 == Shl(b, n - 1) + m / 2;
    }
  }

  lemma {:induction false} XorBound(x: nat, y: nat, n: nat)
    requires x < Pow2(n) && y < Pow2(n)
    ensures Xor(x, y) < Pow2(n)
  {
    XorParts(0, x, 0, y, n);
    ShlZero(n);
  }

  lemma {:induction false} XorBit(x: nat, y: nat, i: nat)
    ensures Bit(Xor(x, y), i) == (Bit(x, i) != Bit(y, i))
  {
    XorHalf(x, y);
    if i > 0 {
      XorBit(x / 2, y / 2, i - 1);
      ShrFront(x, i);
      ShrFront(y, i);
      ShrFront(Xor(x, y), i);
    }
  }

  /** Numbers of n bits that agree in every bit are equal. */
  lemma {:induction false} BitsDetermine(x: nat, y: nat, n: nat)
    requires x < Pow2(n) && y < Pow2(n) && forall i :: 0 <= i < n ==> Bit(x, i) == Bit(y, i)
    ensures x == y
  {
    if n > 0 {
      assert Bit(x, 0) == Bit(y, 0);
      forall i | 0 <= i < n - 1
        ensures Bit(x / 2, i) == Bit(y / 2, i)
      {
        ShrFront(x, i + 1);
        ShrFront(y, i + 1);
        assert Bit(x, i + 1) == Bit(y, i + 1);
      }
      BitsDetermine(x / 2, y / 2, n - 1);
    }
  }

  // ---- The feedback ----

  /** The sum of the generators picked by the bits of top. */
  function Feedback(top: nat, gens: seq<nat>): nat {
    if gens == [] then 0
    else Xor(Feedback(top, gens[..|gens| - 1]), if Bit(top, |gens| - 1) then gens[|gens| - 1] else 0)
  }

  lemma {:induction false} FeedbackBounded(top: nat, gens: seq<nat>)
    requires Narrow(gens, STATE_BITS)
    ensures Feedback(top, gens) < Pow2(STATE_BITS)
  {
    if gens != [] {
      FeedbackBounded(top, gens[..|gens| - 1]);
      XorBound(Feedback(top, gens[..|gens| - 1]), if Bit(top, |gens| - 1) then gens[|gens| - 1] else 0, STATE_BITS);
    }
  }

  lemma {:induction false} FeedbackBit(top: nat, gens: seq<nat>, i: nat)
    requires gens != []
    ensures Bit(Feedback(top, gens), i)
         == (Bit(Feedback(top, gens[..|gens| - 1]), i) != (Bit(top, |gens| - 1) && Bit(gens[|gens| - 1], i)))
  {
    XorBit(Feedback(top, gens[..|gens| - 1]), if Bit(top, |gens| - 1) then gens[|gens| - 1] else 0, i);
    ShrZero(i);
  }

  const GENERATORS: seq<nat> := [0x3b6a57b2, 0x26508e6d, 0x1ea119fa, 0x3d4233dd, 0x2a1462b3]

  function Parity(a: bool, b: bool, c: bool, d: bool, e: bool): bool {
    ((((a != b) != c) != d) != e)
  }

  lemma {:induction false} PrefixBit(top: nat, gens: seq<nat>, n: nat, i: nat)
    requires n < |gens|
    ensures Bit(Feedback(top, gens[..n + 1]), i)
         == (Bit(Feedback(top, gens[..n]), i) != (Bit(top, n) && Bit(gens[n], i)))
  {
    FeedbackBit(top, gens[..n + 1], i);
    assert gens[..n + 1][..n] == gens[..n];
  }

  /** One bit of the feedback is a parity of bits of top. */
  lemma {:induction false} FeedbackParity(top: nat, i: nat)
    requires |GENERATORS| == 5
    ensures Bit(Feedback(top, GENERATORS), i)
         == Parity(Bit(top, 0) && Bit(GENERATORS[0], i), Bit(top, 1) && Bit(GENERATORS[1], i),
                   Bit(top, 2) && Bit(GENERATORS[2], i), Bit(top, 3) && Bit(GENERATORS[3], i),
                   Bit(top, 4) && Bit(GENERATORS[4], i))
  {
    FiveTerms(top, GENERATORS, i);
  }

  lemma {:induction false} FiveTerms(top: nat, g: seq<nat>, i: nat)
    requires |g| == 5
    ensures Bit(Feedback(top, g), i)
         == Parity(Bit(top, 0) && Bit(g[0], i), Bit(top, 1) && Bit(g[1], i), Bit(top, 2) && Bit(g[2], i),
                   Bit(top, 3) && Bit(g[3], i), Bit(top, 4) && Bit(g[4], i))
  {
    assert g[..5] == g && g[..0] == [];
    ShrZero(i);
    PrefixBit(top, g, 0, i);
    PrefixBit(top, g, 1, i);
    PrefixBit(top, g, 2, i);
    PrefixBit(top, g, 3, i);
    PrefixBit(top, g, 4, i);
  }

  lemma {:induction false} FiveBits(g: nat, h1: nat, h2: nat, h3: nat, h4: nat)
    requires h1 == g / 2 && h2 == h1 / 2 && h3 == h2 / 2 && h4 == h3 / 2
    ensures Bit(g, 0) == (g % 2 == 1) && Bit(g, 1) == (h1 % 2 == 1) && Bit(g, 2) == (h2 % 2 == 1)
    ensures Bit(g, 3) == (h3 % 2 == 1) && Bit(g, 4) == (h4 % 2 == 1)
  {
    assert Shr(g, 1) == h1;
    assert Shr(g, 2) == h2;
    assert Shr(g, 3) == h3;
  }

  /** The five lowest bits of generator k, as a bit set. */
  predicate LowBits(k: nat, b0: bool, b1: bool, b2: bool, b3: bool, b4: bool)
    requires k < |GENERATORS|
  {
    var g := GENERATORS[k];
    Bit(g, 0) == b0 && Bit(g, 1) == b1 && Bit(g, 2) == b2 && Bit(g, 3) == b3 && Bit(g, 4) == b4
  }

  lemma {:induction false} GeneratorBits()
    ensures |GENERATORS| == 5
    ensures LowBits(0, false, true, false, false, true)
    ensures LowBits(1, true, false, true, true, false)
    ensures LowBits(2, false, true, false, true, true)
    ensures LowBits(3, true, false, true, true, true)
    ensures LowBits(4, true, true, false, false, true)
  {
    FiveBits(0x3b6a57b2, 0x1db52bd9, 0xeda95ec, 0x76d4af6, 0x3b6a57b);
    FiveBits(0x26508e6d, 0x13284736, 0x994239b, 0x4ca11cd, 0x26508e6);
    FiveBits(0x1ea119fa, 0xf508cfd, 0x7a8467e, 0x3d4233f, 0x1ea119f);
    FiveBits(0x3d4233dd, 0x1ea119ee, 0xf508cf7, 0x7a8467b, 0x3d4233d);
    FiveBits(0x2a1462b3, 0x150a3159, 0xa8518ac, 0x5428c56, 0x2a1462b);
  }

  lemma {:induction false} GeneratorsNarrow()
    ensures Narrow(GENERATORS, STATE_BITS)
  {
    Powers();
  }

  lemma {:induction false} Powers()
    ensures Pow2(WIDTH) == 32 && Pow2(TOP) == 0x2000000 && Pow2(STATE_BITS) == 0x40000000
  {
    assert Pow2(5) == 32;
    Currency.Pow2Split(5, 5);
    Currency.Pow2Split(10, 10);
    Currency.Pow2Split(20, 5);
    Currency.Pow2Split(25, 5);
  }

  /** The five lowest bits of the feedback tell the five bits shifted out apart. */
  lemma {:induction false} FeedbackInjective(a: nat, b: nat)
    requires a < 32 && b < 32 && forall i :: 0 <= i < 5 ==>
               Bit(Feedback(a, GENERATORS), i) == Bit(Feedback(b, GENERATORS), i)
    ensures a == b
  {
    GeneratorBits();
    ParitiesDetermine(a, b);
    Powers();
    BitsDetermine(a, b, WIDTH);
  }

  lemma {:induction false} ParitiesDetermine(a: nat, b: nat)
    requires |GENERATORS| == 5 && forall i :: 0 <= i < 5 ==>
               Bit(Feedback(a, GENERATORS), i) == Bit(Feedback(b, GENERATORS), i)
    ensures forall i :: 0 <= i < 5 ==> Bit(a, i) == Bit(b, i)
  {
    GeneratorBits();
    FeedbackParity(a, 0); FeedbackParity(b, 0);
    FeedbackParity(a, 1); FeedbackParity(b, 1);
    FeedbackParity(a, 2); FeedbackParity(b, 2);
    FeedbackParity(a, 3); FeedbackParity(b, 3);
    FeedbackParity(a, 4); FeedbackParity(b, 4);
  }

  // ---- One step of the checksum ----

  function Step(c: nat, v: nat): nat {
    Xor(Xor(Shl(Low(c, TOP), WIDTH), v), Feedback(Shr(c, TOP), GENERATORS))
  }

  predicate State(c: nat) {
    c < Pow2(STATE_BITS)
  }

  predicate Symbol(v: nat) {
    v < Pow2(WIDTH)
  }

  lemma {:induction false} ShlJoin(x: nat, v: nat, n: nat)
    requires v < Pow2(n)
    ensures Xor(Shl(x, n), v) == Shl(x, n) + v
  {
    XorParts(x, 0, 0, v, n);
    ShlZero(n);
    XorId(x);
    XorId(v);
  }

  lemma {:induction false} JoinBound(x: nat, v: nat, k: nat, n: nat)
    requires x < Pow2(k) && v < Pow2(n)
    ensures Shl(x, n) + v < Pow2(k + n)
  {
    ShlAdd(x, 1, n);
    ShlPow2(n);
    ShlMonotone(x + 1, Pow2(k), n);
    ShlTimes(Pow2(k), n);
    Currency.Pow2Split(k, n);
  }

  /** The shifted state and the symbol do not overlap. */
  lemma {:induction false} ShiftedIs(c: nat, v: nat)
    requires Symbol(v)
    ensures Xor(Shl(Low(c, TOP), WIDTH), v) == Shl(Low(c, TOP), WIDTH) + v
    ensures Shl(Low(c, TOP), WIDTH) + v < Pow2(STATE_BITS)
  {
    LowSplit(c, TOP);
    ShlJoin(Low(c, TOP), v, WIDTH);
    JoinBound(Low(c, TOP), v, TOP, WIDTH);
  }

  lemma {:induction false} StepBounded(c: nat, v: nat)
    requires Symbol(v)
    ensures State(Step(c, v))
  {
    hide Xor, Shl, Shr, Low, Feedback, Pow2;
    ShiftedIs(c, v);
    GeneratorsNarrow();
    FeedbackBounded(Shr(c, TOP), GENERATORS);
    XorBound(Shl(Low(c, TOP), WIDTH) + v, Feedback(Shr(c, TOP), GENERATORS), STATE_BITS);
  }

  /** A step in two parts: the five lowest bits, and the others. */
  lemma {:induction false} StepParts(c: nat, v: nat, g: nat)
    requires Symbol(v) && g == Feedback(Shr(c, TOP), GENERATORS)
    ensures Step(c, v) == Shl(Xor(Low(c, TOP), Shr(g, WIDTH)), WIDTH) + Xor(v, Low(g, WIDTH))
    ensures Xor(v, Low(g, WIDTH)) < Pow2(WIDTH)
  {
    hide Xor, Shl, Shr, Low, Feedback, Pow2;
    ShiftedIs(c, v);
    LowSplit(g, WIDTH);
    XorParts(Low(c, TOP), v, Shr(g, WIDTH), Low(g, WIDTH), WIDTH);
  }

  lemma {:induction false} LowAgree(x: nat, y: nat, n: nat)
    requires Low(x, n) == Low(y, n)
    ensures forall i :: 0 <= i < n ==> Bit(x, i) == Bit(y, i)
  {
    if n > 0 {
      LowAgree(x / 2, y / 2, n - 1);
      forall i | 0 <= i < n
        ensures Bit(x, i) == Bit(y, i)
      {
        if i > 0 {
          ShrFront(x, i);
          ShrFront(y, i);
          assert Bit(x / 2, i - 1) == Bit(y / 2, i - 1);
        }
      }
    }
  }

  lemma {:induction false} Unjoin(h: nat, l: nat, k: nat, m: nat, n: nat)
    requires l < Pow2(n) && m < Pow2(n) && Shl(h, n) + l == Shl(k, n) + m
    ensures h == k && l == m
  {
    Join(h, l, n);
    Join(k, m, n);
  }

  lemma {:induction false} TopBound(c: nat)
    requires State(c)
    ensures Shr(c, TOP) < 32
  {
    ShrBound(c, WIDTH, TOP);
    Powers();
  }

  /** A step with a given symbol is injective on the states. */
  lemma {:induction false} StepInjective(c: nat, d: nat, v: nat)
    requires State(c) && State(d) && Symbol(v) && Step(c, v) == Step(d, v)
    ensures c == d
  {
    var g, h := Feedback(Shr(c, TOP), GENERATORS), Feedback(Shr(d, TOP), GENERATORS);
    StepParts(c, v, g);
    StepParts(d, v, h);
    Unjoin(Xor(Low(c, TOP), Shr(g, WIDTH)), Xor(v, Low(g, WIDTH)), Xor(Low(d, TOP), Shr(h, WIDTH)),
           Xor(v, Low(h, WIDTH)), WIDTH);
    XorCancel(v, Low(g, WIDTH), Low(h, WIDTH));
    LowAgree(g, h, WIDTH);
    TopBound(c);
    TopBound(d);
    FeedbackInjective(Shr(c, TOP), Shr(d, TOP));
    XorSymmetric(Low(c, TOP), Shr(g, WIDTH));
    XorSymmetric(Low(d, TOP), Shr(g, WIDTH));
    XorCancel(Shr(g, WIDTH), Low(c, TOP), Low(d, TOP));
    LowSplit(c, TOP);
    LowSplit(d, TOP);
  }

  lemma {:induction false} StepDiffers(c: nat, v: nat, w: nat)
    requires Symbol(v) && Symbol(w) && Step(c, v) == Step(c, w)
    ensures v == w
  {
    var x, g := Shl(Low(c, TOP), WIDTH), Feedback(Shr(c, TOP), GENERATORS);
    XorSymmetric(Xor(x, v), g);
    XorSymmetric(Xor(x, w), g);
    XorCancel(g, Xor(x, v), Xor(x, w));
    XorCancel(x, v, w);
  }

  lemma {:induction false} Shuffle(p: nat, q: nat, v: nat, g: nat)
    ensures Xor(Xor(Xor(p, q), v), g) == Xor(Xor(Xor(p, 0), g), Xor(q, v))
  {
    XorId(p);
    XorAssoc(p, q, v);
    XorAssoc(p, Xor(q, v), g);
    XorSymmetric(Xor(q, v), g);
    XorAssoc(p, g, Xor(q, v));
  }

  lemma {:induction false} LowXor(c: nat, d: nat, n: nat)
    requires d < Pow2(n)
    ensures Shr(Xor(c, d), n) == Shr(c, n) && Low(Xor(c, d), n) == Xor(Low(c, n), d)
  {
    LowSplit(c, n);
    XorParts(Shr(c, n), Low(c, n), 0, d, n);
    ShlZero(n);
    XorId(Shr(c, n));
    Join(Shr(c, n), Xor(Low(c, n), d), n);
  }

  lemma {:induction false} ShlXor(x: nat, y: nat, n: nat)
    ensures Shl(Xor(x, y), n) == Xor(Shl(x, n), Shl(y, n))
  {
    XorParts(x, 0, y, 0, n);
    XorId(0);
  }

  /** A difference that is not shifted out yet passes through a step unmixed. */
  lemma {:induction false} Absorb(c: nat, d: nat, v: nat)
    requires d < Pow2(TOP) && Symbol(v)
    ensures Step(Xor(c, d), v) == Xor(Step(c, 0), Shl(d, WIDTH) + v)
  {
    hide Xor, Shl, Shr, Low, Feedback, Pow2;
    LowXor(c, d, TOP);
    ShlXor(Low(c, TOP), d, WIDTH);
    ShlJoin(d, v, WIDTH);
    Shuffle(Shl(Low(c, TOP), WIDTH), Shl(d, WIDTH), v, Feedback(Shr(c, TOP), GENERATORS));
  }

  // ---- Whole lists ----

  function Run(c: nat, vs: seq<nat>): nat {
    if vs == [] then c else Step(Run(c, vs[..|vs| - 1]), vs[|vs| - 1])
  }

  /** The loop over the generators. */
  method Combine(x: nat, top: nat, gens: seq<nat>) returns (chk: nat)
    ensures chk == Xor(x, Feedback(top, gens))
  {
    chk := x;
    XorId(x);
    for i := 0 to |gens|
      invariant chk == Xor(x, Feedback(top, gens[..i]))
    {
      assert gens[..i + 1][..i] == gens[..i];
      XorAssoc(x, Feedback(top, gens[..i]), if Bit(top, i) then gens[i] else 0);
      if Bit(top, i) {
        chk := Xor(chk, gens[i]);
      } else {
        XorId(chk);
      }
    }
    assert gens[..|gens|] == gens;
  }

  /** bech32Polymod. */
  method Polymod(values: seq<nat>) returns (chk: nat)
    ensures chk == Run(1, values)
  {
    chk := 1;
    for k := 0 to |values|
      invariant chk == Run(1, values[..k])
    {
      assert values[..k + 1][..k] == values[..k];
      chk := Combine(Xor(Shl(Low(chk, TOP), WIDTH), values[k]), Shr(chk, TOP), GENERATORS);
    }
    assert values[..|values|] == values;
  }

  lemma {:induction false} RunBounded(c: nat, vs: seq<nat>)
    requires State(c) && Narrow(vs, WIDTH)
    ensures State(Run(c, vs))
  {
    if vs != [] {
      RunBounded(c, vs[..|vs| - 1]);
      StepBounded(Run(c, vs[..|vs| - 1]), vs[|vs| - 1]);
    }
  }

  lemma {:induction false} RunAppend(c: nat, vs: seq<nat>, ws: seq<nat>)
    ensures Run(c, vs + ws) == Run(Run(c, vs), ws)
  {
    if ws == [] {
      assert vs + [] == vs;
    } else {
      RunAppend(c, vs, ws[..|ws| - 1]);
      assert (vs + ws)[..|vs + ws| - 1] == vs + ws[..|ws| - 1];
    }
  }

  lemma {:induction false} RunInjective(c: nat, d: nat, vs: seq<nat>)
    requires State(c) && State(d) && Narrow(vs, WIDTH) && Run(c, vs) == Run(d, vs)
    ensures c == d
  {
    if vs != [] {
      var front := vs[..|vs| - 1];
      RunBounded(c, front);
      RunBounded(d, front);
      StepInjective(Run(c, front), Run(d, front), vs[|vs| - 1]);
      RunInjective(c, d, front);
    }
  }

  lemma {:induction false} RunOne(c: nat, vs: seq<nat>, v: nat)
    ensures Run(c, vs + [v]) == Step(Run(c, vs), v)
  {
    assert (vs + [v])[..|vs|] == vs;
  }

  /** Lists of symbols that differ in exactly one place have different checksums. */
  lemma {:induction false} OneErrorDetected(c: nat, before: seq<nat>, v: nat, w: nat, after: seq<nat>)
    requires State(c) && Narrow(before, WIDTH) && Symbol(v) && Symbol(w) && Narrow(after, WIDTH)
    requires Run(c, before + [v] + after) == Run(c, before + [w] + after)
    ensures v == w
  {
    var x := Run(c, before);
    RunAppend(c, before + [v], after);
    RunAppend(c, before + [w], after);
    RunOne(c, before, v);
    RunOne(c, before, w);
    StepBounded(x, v);
    StepBounded(x, w);
    RunInjective(Step(x, v), Step(x, w), after);
    StepDiffers(x, v, w);
  }

  // ---- The six symbols of the checksum ----

  const CHECK: nat := 0x2bc830a3

  function Zeros(n: nat): (zs: seq<nat>)
    ensures |zs| == n
  {
    seq(n, _ => 0)
  }

  lemma {:induction false} FewSymbols(vs: seq<nat>)
    requires Narrow(vs, WIDTH) && |vs| <= 5
    ensures Num(vs, WIDTH) < Pow2(TOP)
  {
    NumBound(vs, WIDTH, WIDTH * |vs|);
    Pow2Monotone(WIDTH * |vs|, TOP);
  }

  /** Up to six symbols are added to what zeros in their place would give. */
  lemma {:induction false} AbsorbLast(c: nat, front: seq<nat>, v: nat, zs: seq<nat>)
    requires Narrow(front, WIDTH) && |front| < 6 && Symbol(v) && zs == Zeros(|front|)
    requires Run(c, front) == Xor(Run(c, zs), Num(front, WIDTH))
    ensures Run(c, front + [v]) == Xor(Run(c, zs + [0]), Num(front + [v], WIDTH))
  {
    hide Xor, Shl, Step, Run, Num, Pow2;
    FewSymbols(front);
    Absorb(Run(c, zs), Num(front, WIDTH), v);
    RunOne(c, front, v);
    RunOne(c, zs, 0);
    NumAppend(front, v, WIDTH);
  }

  lemma {:induction false} RunAbsorb(c: nat, vs: seq<nat>)
    requires Narrow(vs, WIDTH) && |vs| <= 6
    ensures Run(c, vs) == Xor(Run(c, Zeros(|vs|)), Num(vs, WIDTH))
  {
    if vs == [] {
      XorId(c);
    } else {
      hide Xor, Run, Num;
      var front, v := vs[..|vs| - 1], vs[|vs| - 1];
      RunAbsorb(c, front);
      assert front + [v] == vs && Zeros(|front|) + [0] == Zeros(|vs|);
      AbsorbLast(c, front, v, Zeros(|front|));
    }
  }

  /** The symbols that complete a list with running state c. */
  function CheckSymbols(c: nat): seq<nat> {
    Digits(Xor(Run(c, Zeros(6)), CHECK), WIDTH, 6)
  }

  /** Six symbols complete a list to the Bech32m constant exactly if they are the check symbols. */
  lemma {:induction false} CheckSymbolsIff(c: nat, ws: seq<nat>)
    requires State(c) && Narrow(ws, WIDTH) && |ws| == 6
    ensures Run(c, ws) == CHECK <==> ws == CheckSymbols(c)
  {
    var z := Run(c, Zeros(6));
    RunBounded(c, Zeros(6));
    Powers();
    XorBound(z, CHECK, STATE_BITS);
    NumOfDigits(Xor(z, CHECK), WIDTH, 6, STATE_BITS);
    DigitsNarrow(Xor(z, CHECK), WIDTH, 6);
    RunAbsorb(c, ws);
    XorAssoc(z, z, CHECK);
    XorZero(z, z);
    XorId(CHECK);
    if Run(c, ws) == CHECK {
      XorCancel(z, Num(ws, WIDTH), Xor(z, CHECK));
      NumInjective(ws, CheckSymbols(c), WIDTH);
    }
  }

  lemma {:induction false} CheckSymbolsFit(c: nat)
    requires State(c)
    ensures |CheckSymbols(c)| == 6 && Narrow(CheckSymbols(c), WIDTH) && Run(c, CheckSymbols(c)) == CHECK
  {
    DigitsNarrow(Xor(Run(c, Zeros(6)), CHECK), WIDTH, 6);
    CheckSymbolsIff(c, CheckSymbols(c));
  }
}
