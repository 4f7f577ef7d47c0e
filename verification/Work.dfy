/** 256-bit quantities of work on four 64-bit words, most significant first. */
module Work {
  import opened Currency

  const WORK_LIMIT: nat := 0x1_0000000000000000_0000000000000000_0000000000000000_0000000000000000

  type Words = w: seq<u64> | |w| == 4 witness [0, 0, 0, 0]

  /** The value of the k most significant words. */
  function High(w: Words, k: nat): nat
    requires k <= 4
  {
    if k == 0 then 0 else High(w, k - 1) * WORD + w[k - 1]
  }

  function Val(w: Words): nat {
    High(w, 4)
  }

  /** WORD to the power k. */
  function Weight(k: nat): (p: nat)
    ensures p > 0
  {
    if k == 0 then 1 else Weight(k - 1) * WORD
  }

  /** The value of the k least significant words. */
  function Low(w: Words, k: nat): nat
    requires k <= 4
  {
    if k == 0 then 0 else w[4 - k] * Weight(k - 1) + Low(w, k - 1)
  }

  lemma {:induction false} LowIsVal(w: Words)
    ensures Low(w, 4) == Val(w) < Weight(4) == WORK_LIMIT
  {
    assert Weight(1) == WORD && Weight(2) == WORD * WORD && Weight(3) == WORD * WORD * WORD;
    assert Low(w, 1) == w[3];
    assert Low(w, 2) == w[2] * WORD + w[3];
    assert Low(w, 3) == w[1] * (WORD * WORD) + w[2] * WORD + w[3];
    assert High(w, 1) == w[0];
    assert High(w, 2) == w[0] * WORD + w[1];
    assert High(w, 3) == (w[0] * WORD + w[1]) * WORD + w[2];
  }

  /** Only the k least significant words matter. */
  lemma {:induction false} LowAgrees(w: Words, v: Words, k: nat)
    requires k <= 4 && forall i :: 4 - k <= i < 4 ==> w[i] == v[i]
    ensures Low(w, k) == Low(v, k)
  {
    if k > 0 { LowAgrees(w, v, k - 1); }
  }

  lemma {:induction false} Scale(a: int, b: int, T: int)
    requires a == b
    ensures a * T == b * T
  {}

  /** One word of a sum at weight T, with its carries. */
  lemma {:induction false} AddStep(x: int, y: int, c: int, word: int, out: int, T: int)
    requires word + out * WORD == x + y + c
    ensures word * T + out * (T * WORD) == x * T + y * T + c * T
  {
    Scale(word + out * WORD, x + y + c, T);
    assert (word + out * WORD) * T == word * T + out * (T * WORD);
  }

  lemma {:induction false} SubStep(x: int, y: int, c: int, word: int, out: int, T: int)
    requires word - out * WORD == x - y - c
    ensures word * T - out * (T * WORD) == x * T - y * T - c * T
  {
    AddStep(x, -y, -c, word, -out, T);
  }

  lemma {:induction false} MulStep(x: int, v: int, c: int, word: int, out: int, T: int, low: int)
    requires word + out * WORD == x * v + c
    ensures word * T + out * (T * WORD) == (x * T) * v + c * T
    ensures (x * T + low) * v == (x * T) * v + low * v
  {
    AddStep(x * v, 0, c, word, out, T);
    assert (x * v) * T == (x * T) * v;
  }

  /** Panics exactly when the sum does not fit. */
  method Add(w: Words, v: Words) returns (r: Words, panicked: bool)
    ensures panicked <==> Val(w) + Val(v) >= WORK_LIMIT
    ensures !panicked ==> Val(r) == Val(w) + Val(v)
  {
    r := [0, 0, 0, 0];
    var c: u64 := 0;
    for k := 0 to 4
      invariant c <= 1 && Low(r, k) + c * Weight(k) == Low(w, k) + Low(v, k)
    {
      var i := 3 - k;
      var s := Add64(w[i], v[i], c);
      AddStep(w[i], v[i], c, s.0, s.1, Weight(k));
      LowAgrees(r[i := s.0], r, k);
      r, c := r[i := s.0], s.1;
    }
    panicked := c > 0;
    LowIsVal(w);
    LowIsVal(v);
    LowIsVal(r);
  }

  /** Panics exactly when the difference is negative. */
  method Sub(w: Words, v: Words) returns (r: Words, panicked: bool)
    ensures panicked <==> Val(w) < Val(v)
    ensures !panicked ==> Val(r) == Val(w) - Val(v)
  {
    r := [0, 0, 0, 0];
    var c: u64 := 0;
    for k := 0 to 4
      invariant c <= 1 && Low(r, k) - c * Weight(k) == Low(w, k) - Low(v, k)
    {
      var i := 3 - k;
      var s := Sub64(w[i], v[i], c);
      SubStep(w[i], v[i], c, s.0, s.1, Weight(k));
      LowAgrees(r[i := s.0], r, k);
      r, c := r[i := s.0], s.1;
    }
    panicked := c > 0;
    LowIsVal(w);
    LowIsVal(v);
    LowIsVal(r);
  }

  lemma {:induction false} CarryFits(hi: int, lo: int, x: int, y: int, c: int, cc: int)
    requires 0 <= x < WORD && 0 <= y < WORD && 0 <= c < WORD && 0 <= lo
    requires hi * WORD + lo == x * y && cc * WORD <= lo + c
    ensures hi + cc < WORD
  {
    MulMonotone(x, WORD - 1, y);
  }

  lemma {:induction false} MulInvariant(x: int, v: int, c: int, word: int, carry: int, T: int, lowR: int, lowW: int)
    requires word + carry * WORD == x * v + c && lowR + c * T == lowW * v
    ensures word * T + lowR + carry * (T * WORD) == (x * T + lowW) * v
  {
    MulStep(x, v, c, word, carry, T, lowW);
  }

  lemma {:induction false} CarryMeansOverflow(low: int, c: int, limit: int, product: int)
    requires 0 <= low < limit && 0 <= c && low + c * limit == product
    ensures c > 0 <==> product >= limit
    ensures c == 0 ==> low == product
  {
    if c > 0 { MulMonotone(1, c, limit); }
  }

  /** One word of a product, with its carries. */
  method MulWord(x: u64, v: u64, c: u64) returns (word: u64, carry: u64)
    ensures word + carry * WORD == x * v + c
  {
    var m := Mul64(x, v);
    var s := Add64(m.1, c, 0);
    CarryFits(m.0, m.1, x, v, c, s.1);
    word, carry := s.0, m.0 + s.1;
  }

  /** Panics exactly when the product does not fit. */
  method MulBy64(w: Words, v: u64) returns (r: Words, panicked: bool)
    ensures panicked <==> Val(w) * v >= WORK_LIMIT
    ensures !panicked ==> Val(r) == Val(w) * v
  {
    r := [0, 0, 0, 0];
    var c: u64 := 0;
    for k := 0 to 4
      invariant Low(r, k) + c * Weight(k) == Low(w, k) * v
    {
      var i := 3 - k;
      var word, carry := MulWord(w[i], v, c);
      MulInvariant(w[i], v, c, word, carry, Weight(k), Low(r, k), Low(w, k));
      LowAgrees(r[i := word], r, k);
      r, c := r[i := word], carry;
    }
    panicked := c > 0;
    LowIsVal(w);
    LowIsVal(r);
    CarryMeansOverflow(Low(r, 4), c, WORK_LIMIT, Val(w) * v);
  }

  /** Only the k most significant words matter. */
  lemma {:induction false} HighAgrees(w: Words, v: Words, k: nat)
    requires k <= 4 && forall i :: 0 <= i < k ==> w[i] == v[i]
    ensures High(w, k) == High(v, k)
  {
    if k > 0 { HighAgrees(w, v, k - 1); }
  }

  /** Long division by a word; panics if v is zero. */
  method DivBy64(w: Words, v: u64) returns (r: Words)
    requires v != 0
    ensures Val(r) == Val(w) / v
  {
    r := [0, 0, 0, 0];
    var rem: u64 := 0;
    for i := 0 to 4
      invariant rem < v && High(r, i) * v + rem == High(w, i)
    {
      var d := Div64(rem, w[i], v);
      HighAgrees(r[i := d.0], r, i);
      DivideStep(High(r, i), d.0, d.1, rem, w[i], v, High(w, i));
      r, rem := r[i := d.0], d.1;
    }
    DivUnique(Val(w), v, Val(r), rem);
  }

  lemma {:induction false} DivideStep(q: int, d: int, r: int, rem: int, word: int, v: int, high: int)
    requires q * v + rem == high && d * v + r == rem * WORD + word
    ensures (q * WORD + d) * v + r == high * WORD + word
  {
    calc {
      (q * WORD + d) * v + r;
      (q * v) * WORD + (d * v + r);
      (q * v) * WORD + rem * WORD + word;
      high * WORD + word;
    }
  }

  /** bytes.Compare on big-endian words: the first different word decides. */
  function Cmp(w: Words, v: Words): (r: int) {
    CmpFrom(w, v, 0)
  }

  function CmpFrom(w: Words, v: Words, i: nat): int
    requires i <= 4
    decreases 4 - i
  {
    if i == 4 then 0 else if w[i] < v[i] then -1 else if w[i] > v[i] then 1 else CmpFrom(w, v, i + 1)
  }

  /** The word order is the numeric order. */
  lemma {:induction false} CmpIsOrder(w: Words, v: Words)
    ensures (Cmp(w, v) < 0 <==> Val(w) < Val(v)) && (Cmp(w, v) > 0 <==> Val(w) > Val(v))
  {
    LowIsVal(w);
    LowIsVal(v);
    CmpFromIsOrder(w, v, 0);
  }

  lemma {:induction false} WordBelow(x: int, y: int, T: int)
    requires x < y && T >= 0
    ensures x * T + T <= y * T
  {
    MulMonotone(x + 1, y, T);
  }

  lemma {:induction false} LowBelow(w: Words, k: nat)
    requires k <= 4
    ensures Low(w, k) < Weight(k)
  {
    if k > 0 {
      LowBelow(w, k - 1);
      WordBelow(w[4 - k], WORD, Weight(k - 1));
    }
  }

  lemma {:induction false} CmpFromIsOrder(w: Words, v: Words, i: nat)
    requires i <= 4
    ensures CmpFrom(w, v, i) < 0 <==> Low(w, 4 - i) < Low(v, 4 - i)
    ensures CmpFrom(w, v, i) > 0 <==> Low(w, 4 - i) > Low(v, 4 - i)
    decreases 4 - i
  {
    if i < 4 {
      CmpFromIsOrder(w, v, i + 1);
      LowBelow(w, 3 - i);
      LowBelow(v, 3 - i);
      var T := Weight(3 - i);
      if w[i] < v[i] { WordBelow(w[i], v[i], T); }
      if w[i] > v[i] { WordBelow(v[i], w[i], T); }
    }
  }

  method Min(w: Words, v: Words) returns (r: Words)
    ensures Val(r) == if Val(w) < Val(v) then Val(w) else Val(v)
  {
    CmpIsOrder(w, v);
    r := if Cmp(w, v) < 0 then w else v;
  }

  method Max(w: Words, v: Words) returns (r: Words)
    ensures Val(r) == if Val(w) > Val(v) then Val(w) else Val(v)
  {
    CmpIsOrder(w, v);
    r := if Cmp(w, v) > 0 then w else v;
  }
}
