/** 128-bit currency arithmetic on two 64-bit words. */
module Currency {
  import opened Bits

  const WORD: nat := 0x1_0000_0000_0000_0000
  const TOP_BIT: nat := 0x8000_0000_0000_0000
  const LIMIT: nat := 0x1_0000_0000_0000_0000_0000_0000_0000_0000

  type u64 = x: int | 0 <= x < 0x1_0000_0000_0000_0000

  // ---- math/bits ----

  /** bits.Add64: the sum and the carry out. */
  function Add64(x: u64, y: u64, carry: u64): (r: (u64, u64))
    requires carry <= 1
    ensures r.1 <= 1 && r.0 + r.1 * WORD == x + y + carry
  {
    var s := x + y + carry;
    if s < WORD then (s, 0) else (s - WORD, 1)
  }

  /** bits.Sub64: the difference and the borrow out. */
  function Sub64(x: u64, y: u64, borrow: u64): (r: (u64, u64))
    requires borrow <= 1
    ensures r.1 <= 1 && r.0 - r.1 * WORD == x - y - borrow
  {
    var d := x - y - borrow;
    if d >= 0 then (d, 0) else (d + WORD, 1)
  }

  lemma {:induction false} MulMonotone(a: int, b: int, c: int)
    requires a <= b && c >= 0
    ensures a * c <= b * c
  {}

  lemma {:induction false} ProductFits(x: u64, y: u64)
    ensures 0 <= x * y < WORD * WORD
  {
    MulMonotone(0, x, y);
    MulMonotone(x, WORD, y);
  }

  /** bits.Mul64: the high and the low word of the product. */
  function Mul64(x: u64, y: u64): (r: (u64, u64))
    ensures r.0 * WORD + r.1 == x * y
  {
    ProductFits(x, y);
    ((x * y) / WORD, (x * y) % WORD)
  }

  lemma {:induction false} QuotientFits(hi: u64, lo: u64, y: u64)
    requires hi < y
    ensures (hi * WORD + lo) / y < WORD
  {}

  /** bits.Div64, which panics unless hi < y. */
  function Div64(hi: u64, lo: u64, y: u64): (r: (u64, u64))
    requires hi < y
    ensures r.0 * y + r.1 == hi * WORD + lo && r.1 < y
  {
    QuotientFits(hi, lo, y);
    ((hi * WORD + lo) / y, (hi * WORD + lo) % y)
  }

  // ---- Currency ----

  datatype Currency = Currency(lo: u64, hi: u64) {
    function Val(): (v: nat)
      ensures v < LIMIT
    {
      hi * WORD + lo
    }
  }

  const ZERO := Currency(0, 0)

  lemma {:induction false} ValUnique(c: Currency, v: Currency)
    requires c.Val() == v.Val()
    ensures c == v
  {}

  /** -1, 0 or 1 as c is below, equal to or above v. */
  function Cmp(c: Currency, v: Currency): (r: int)
    ensures (r < 0 <==> c.Val() < v.Val()) && (r == 0 <==> c.Val() == v.Val()) && (r > 0 <==> c.Val() > v.Val())
  {
    if c == v then 0
    else if c.hi < v.hi || (c.hi == v.hi && c.lo < v.lo) then -1
    else 1
  }

  function AddWithOverflow(c: Currency, v: Currency): (r: (Currency, bool))
    ensures r.1 <==> c.Val() + v.Val() >= LIMIT
    ensures r.0.Val() == if r.1 then c.Val() + v.Val() - LIMIT else c.Val() + v.Val()
  {
    var (lo, carry) := Add64(c.lo, v.lo, 0);
    var (hi, carry') := Add64(c.hi, v.hi, carry);
    (Currency(lo, hi), carry' != 0)
  }

  /** Panics on overflow. */
  function Add(c: Currency, v: Currency): (r: Currency)
    requires c.Val() + v.Val() < LIMIT
    ensures r.Val() == c.Val() + v.Val()
  {
    AddWithOverflow(c, v).0
  }

  function SubWithUnderflow(c: Currency, v: Currency): (r: (Currency, bool))
    ensures r.1 <==> c.Val() < v.Val()
    ensures r.0.Val() == if r.1 then c.Val() - v.Val() + LIMIT else c.Val() - v.Val()
  {
    var (lo, borrow) := Sub64(c.lo, v.lo, 0);
    var (hi, borrow') := Sub64(c.hi, v.hi, borrow);
    (Currency(lo, hi), borrow' != 0)
  }

  /** Panics on underflow. */
  function Sub(c: Currency, v: Currency): (r: Currency)
    requires v.Val() <= c.Val()
    ensures r.Val() == c.Val() - v.Val()
  {
    SubWithUnderflow(c, v).0
  }

  lemma {:induction false} Mul64Value(c: Currency, v: u64)
    ensures c.Val() * v == (c.hi * v) * WORD + c.lo * v
  {}

  function Mul64WithOverflow(c: Currency, v: u64): (r: (Currency, bool))
    ensures r.1 <==> c.Val() * v >= LIMIT
    ensures !r.1 ==> r.0.Val() == c.Val() * v
  {
    Mul64Value(c, v);
    var (hi0, lo0) := Mul64(c.lo, v);
    var (hi1, lo1) := Mul64(c.hi, v);
    var (hi2, c0) := Add64(hi0, lo1, 0);
    (Currency(lo0, hi2), hi1 != 0 || c0 != 0)
  }

  /** Panics on overflow. */
  function MulBy(c: Currency, v: u64): (r: Currency)
    requires c.Val() * v < LIMIT
    ensures r.Val() == c.Val() * v
  {
    Mul64WithOverflow(c, v).0
  }

  lemma {:induction false} DivUnique(a: nat, b: nat, q: nat, r: nat)
    requires b > 0 && q * b + r == a && r < b
    ensures q == a / b && r == a % b
  {
    var q', r' := a / b, a % b;
    assert q' * b + r' == a;
    if q < q' { MulMonotone(q + 1, q', b); }
    if q > q' { MulMonotone(q' + 1, q, b); }
  }

  /** Division by a 64-bit word; panics if v is zero. */
  function QuoRem64(c: Currency, v: u64): (r: (Currency, u64))
    requires v != 0
    ensures r.0.Val() == c.Val() / v && r.1 == c.Val() % v
  {
    if c.hi < v then
      var d := Div64(c.hi, c.lo, v);
      DivUnique(c.Val(), v, d.0, d.1);
      (Currency(d.0, 0), d.1)
    else
      var h := Div64(0, c.hi, v);
      var l := Div64(h.1, c.lo, v);
      var q := Currency(l.0, h.0);
      assert q.Val() * v == (h.0 * v) * WORD + l.0 * v;
      DivUnique(c.Val(), v, q.Val(), l.1);
      (q, l.1)
  }

  // ---- Division by a 128-bit value ----

  lemma {:induction false} LenBounds(x: nat)
    requires x > 0
    ensures Len(x) > 0 && Pow2(Len(x) - 1) <= x < Pow2(Len(x))
  {
    if x > 1 { LenBounds(x / 2); }
  }

  lemma {:induction false} Doubled(a: nat, b: nat)
    ensures a * (2 * b) == 2 * (a * b)
  {}

  lemma {:induction false} Pow2Split(m: nat, n: nat)
    ensures Pow2(m + n) == Pow2(m) * Pow2(n)
  {
    if n > 0 {
      Pow2Split(m, n - 1);
      Doubled(Pow2(m), Pow2(n - 1));
    }
  }

  /** Or of numbers without common bits is their sum. */
  lemma {:induction false} OrDisjoint(a: nat, b: nat, n: nat)
    requires b < Pow2(n)
    ensures Or(a * Pow2(n), b) == a * Pow2(n) + b
    decreases n
  {
    if n == 0 {
      OrSymmetric(a, 0);
      OrZero(a);
    } else {
      var x := a * Pow2(n - 1);
      assert a * Pow2(n) == 2 * x;
      OrDisjoint(a, b / 2, n - 1);
      if x == 0 && b == 0 {} else {
        assert Or(2 * x, b) == 2 * Or((2 * x) / 2, b / 2) + b % 2;
      }
    }
  }

  lemma {:induction false} Rearrange(Q: nat, E: nat, vh: nat)
    ensures 2 * ((Q * E) * vh) == (vh * (2 * E)) * Q
  {}

  /** The trial quotient X, from u = c / 2, t = u / vh and X = t / E, is never below Q = c / v. */
  lemma {:induction false} TrialNotBelow(c: nat, v: nat, vh: nat, E: nat, u: nat, t: nat, X: nat, Q: nat)
    requires c <= 2 * u + 1 && u < (t + 1) * vh && t < (X + 1) * E && Q * v <= c && vh * (2 * E) <= v
    ensures Q <= X
  {
    if X < Q {
      MulMonotone(X + 1, Q, E);
      MulMonotone(t + 1, Q * E, vh);
      Rearrange(Q, E, vh);
      MulMonotone(vh * (2 * E), v, Q);
      assert false;
    }
  }

  lemma {:induction false} TrialTimesDivisor(c: nat, vh: nat, E: nat, u: nat, t: nat, X: nat)
    requires 2 * u <= c && t * vh <= u && X * E <= t
    ensures (vh * (2 * E)) * X <= c
  {
    MulMonotone(X * E, t, vh);
    Rearrange(X, E, vh);
  }

  lemma {:induction false} Expand(X: int, vh: int, P: int)
    ensures ((vh + 1) * P - 1) * (X - 1) == (vh * P) * X + X * (P - 1) - (vh + 1) * P + 1
  {}

  lemma {:induction false} TrialRoom(c: nat, vh: nat, P: nat, X: nat)
    requires c < LIMIT && TOP_BIT <= vh && P > 0 && P % 2 == 0 && X < WORD && (vh * P) * X <= c
    ensures X * (P - 1) <= (vh + 1) * P - 1
  {
    assert X * (P - 1) == X * P - X;
    assert (vh + 1) * P == vh * P + P;
    if P > 2 {
      assert (X * P) * vh == (vh * P) * X;
      if X * P >= 4 * TOP_BIT {
        MulMonotone(4 * TOP_BIT, X * P, vh);
        assert false;
      }
      MulMonotone(4, P, vh + 1);
    }
  }

  /** ... and exceeds it by at most one. */
  lemma {:induction false} TrialNotAbove(c: nat, v: nat, vh: nat, P: nat, X: nat, Q: nat)
    requires c < LIMIT && TOP_BIT <= vh && P > 0 && P % 2 == 0 && X < WORD && (vh * P) * X <= c
    requires v < (vh + 1) * P && c < (Q + 1) * v
    ensures X <= Q + 1
  {
    TrialRoom(c, vh, P, X);
    if X >= Q + 2 {
      MulMonotone(Q + 1, X - 1, v);
      MulMonotone(v, (vh + 1) * P - 1, X - 1);
      Expand(X, vh, P);
      assert false;
    }
  }

  lemma {:induction false} WordPow2()
    ensures Pow2(64) == WORD && Pow2(63) == TOP_BIT
  {
    MaxLeavesPow2();
  }

  lemma {:induction false} LeadingZeros(x: u64)
    requires x != 0
    ensures 0 < Len(x) <= 64
    ensures TOP_BIT <= x * Pow2(64 - Len(x)) && x < Pow2(Len(x))
  {
    LenBounds(x);
    WordPow2();
    if Len(x) > 64 { Pow2Monotone(64, Len(x) - 1); }
    Pow2Split(Len(x) - 1, 64 - Len(x));
    MulMonotone(Pow2(Len(x) - 1), x, Pow2(64 - Len(x)));
  }

  /** The high word of v << n, where p = 2^n, P = 2^(64-n) and l the top bits of the low word. */
  lemma {:induction false} ShiftedHigh(hi: nat, lo: nat, l: nat, p: nat, P: nat)
    requires p * P == WORD && hi < P && lo < WORD && l * P <= lo < (l + 1) * P
    ensures l < p && hi * p + l < WORD
    ensures (hi * p + l) * P <= hi * WORD + lo < (hi * p + l + 1) * P
  {
    if l >= p {
      MulMonotone(p, l, P);
      assert false;
    }
    MulMonotone(hi, P - 1, p);
    assert (P - 1) * p == WORD - p;
    assert (hi * p) * P == hi * WORD;
    assert (hi * p + l) * P == (hi * p) * P + l * P;
    assert (hi * p + l + 1) * P == (hi * p) * P + (l + 1) * P;
  }

  /** Left and right shift of a 64-bit word. */
  function Shl64(x: u64, n: nat): u64 {
    (x * Pow2(n)) % WORD
  }

  function Shr64(x: u64, n: nat): u64 {
    ShiftShrinks(x, Pow2(n));
    x / Pow2(n)
  }

  lemma {:induction false} ShiftShrinks(x: nat, p: nat)
    requires p > 0
    ensures 0 <= x / p <= x && (x / p) * p <= x < (x / p + 1) * p
  {
    var q, r := x / p, x % p;
    assert x == q * p + r && 0 <= r < p;
    assert (q + 1) * p == q * p + p;
    MulMonotone(1, p, q);
  }

  /** The high word of the divisor shifted left until its top bit is set. */
  method HighWord(v: Currency, n: nat) returns (vh: u64)
    requires v.hi != 0 && n == 64 - Len(v.hi)
    ensures n < 64 && vh >= TOP_BIT
    ensures vh * Pow2(64 - n) <= v.Val() < (vh + 1) * Pow2(64 - n)
  {
    hide Pow2, Or, Len;
    LeadingZeros(v.hi);
    WordPow2();
    ghost var p, P := Pow2(n), Pow2(64 - n);
    Pow2Split(n, 64 - n);
    ShiftShrinks(v.lo, P);
    ShiftedHigh(v.hi, v.lo, v.lo / P, p, P);
    OrDisjoint(v.hi, v.lo / P, n);
    SmallModulo(v.hi * p);
    vh := Or(Shl64(v.hi, n), Shr64(v.lo, 64 - n));
  }

  lemma {:induction false} SmallModulo(x: nat)
    requires x < WORD
    ensures x % WORD == x
  {}

  lemma {:induction false} OneBit()
    ensures Pow2(1) == 2
  {}

  lemma {:induction false} TopBitOf(hi: nat)
    ensures (hi * TOP_BIT) % WORD == (hi % 2) * TOP_BIT
  {
    assert hi * TOP_BIT == (hi / 2) * WORD + (hi % 2) * TOP_BIT;
  }

  /** The dividend shifted right by one. */
  method Halved(c: Currency) returns (u: Currency)
    ensures u.Val() == c.Val() / 2 && u.hi == c.hi / 2
  {
    hide Pow2, Or;
    WordPow2();
    OneBit();
    OrDisjoint(c.hi % 2, c.lo / 2, 63);
    OrSymmetric(c.lo / 2, (c.hi % 2) * Pow2(63));
    TopBitOf(c.hi);
    u := Currency(Or(Shr64(c.lo, 1), Shl64(c.hi, 63)), Shr64(c.hi, 1));
  }

  /** The trial quotient is the quotient Q or one more. */
  method TrialQuotient(c: Currency, v: Currency) returns (tq: u64)
    requires v.hi != 0
    ensures tq - 1 <= c.Val() / v.Val() <= tq
  {
    LeadingZeros(v.hi);
    var n := 64 - Len(v.hi);
    var vh := HighWord(v, n);
    var u := Halved(c);
    var d := Div64(u.hi, u.lo, vh);
    tq := Shr64(d.0, 63 - n);
    TrialOf(c.Val(), v.Val(), vh, Pow2(63 - n), d.0, d.1);
  }

  lemma {:induction false} TrialOf(c: nat, v: nat, vh: nat, E: nat, t: nat, rem: nat)
    requires c < LIMIT && TOP_BIT <= vh && E > 0 && v > 0 && t < WORD
    requires t * vh + rem == c / 2 && rem < vh
    requires vh * (2 * E) <= v < (vh + 1) * (2 * E)
    ensures 0 <= c / v && t / E - 1 <= c / v <= t / E && (c / v) * v <= c < (c / v + 1) * v
  {
    ShiftShrinks(c, v);
    ShiftShrinks(t, E);
    assert (t + 1) * vh == t * vh + vh;
    TrialWithinOne(c, v, vh, E, c / 2, t, t / E, c / v);
  }

  lemma {:induction false} TrialWithinOne(c: nat, v: nat, vh: nat, E: nat, u: nat, t: nat, X: nat, Q: nat)
    requires c < LIMIT && TOP_BIT <= vh && E > 0 && X < WORD && 2 * u <= c <= 2 * u + 1
    requires t * vh <= u < (t + 1) * vh && X * E <= t < (X + 1) * E
    requires vh * (2 * E) <= v < (vh + 1) * (2 * E) && Q * v <= c < (Q + 1) * v
    ensures X - 1 <= Q <= X
  {
    TrialNotBelow(c, v, vh, E, u, t, X, Q);
    TrialTimesDivisor(c, vh, E, u, t, X);
    TrialNotAbove(c, v, vh, 2 * E, X, Q);
  }

  /** One correction makes a quotient that is at most one too small exact. */
  method Correct(c: Currency, v: Currency, tq: u64, ghost Q: nat) returns (q: Currency, r: Currency)
    requires Q * v.Val() <= c.Val() < (Q + 1) * v.Val() && tq <= Q <= tq + 1
    ensures q.Val() * v.Val() + r.Val() == c.Val() && r.Val() < v.Val()
  {
    MulMonotone(tq, Q, v.Val());
    MulMonotone(Q + 1, tq + 2, v.Val());
    assert (tq + 2) * v.Val() == tq * v.Val() + 2 * v.Val();
    assert (tq + 1) * v.Val() == tq * v.Val() + v.Val();
    var m := MulBy(v, tq);
    q := Currency(tq, 0);
    r := Sub(c, m);
    if Cmp(r, v) >= 0 {
      q := if q.lo + 1 == WORD then Currency(0, q.hi + 1) else Currency(q.lo + 1, q.hi);
      r := Sub(r, v);
    }
  }

  /** q = c / v and r = c mod v; panics if v is zero.  No intermediate operation panics. */
  method QuoRem(c: Currency, v: Currency) returns (q: Currency, r: Currency)
    requires v.Val() != 0
    ensures q.Val() == c.Val() / v.Val() && r.Val() == c.Val() % v.Val()
  {
    if v.hi == 0 {
      assert v.Val() == v.lo;
      var d := QuoRem64(c, v.lo);
      q, r := d.0, Currency(d.1, 0);
    } else {
      var tq := TrialQuotient(c, v);
      ShiftShrinks(c.Val(), v.Val());
      if tq != 0 {
        tq := tq - 1;
      }
      q, r := Correct(c, v, tq, c.Val() / v.Val());
      DivUnique(c.Val(), v.Val(), q.Val(), r.Val());
    }
  }
}
