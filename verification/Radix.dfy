/** Regrouping a list of values of some bits each into values of other widths, as numbers. */
module Radix {
  import opened Types
  import opened Bits
  import opened Currency

  // ---- Low bits ----

  /** The n lowest bits of x. */
  function Low(x: nat, n: nat): nat {
    if n == 0 then 0 else x % 2 + 2 * Low(x / 2, n - 1)
  }

  lemma {:induction false} LowSplit(x: nat, n: nat)
    ensures x == Shl(Shr(x, n), n) + Low(x, n) && Low(x, n) < Pow2(n)
  {
    if n > 0 {
      LowSplit(x / 2, n - 1);
      ShrFront(x, n);
    }
  }

  lemma {:induction false} Join(h: nat, l: nat, n: nat)
    requires l < Pow2(n)
    ensures Shr(Shl(h, n) + l, n) == h && Low(Shl(h, n) + l, n) == l
  {
    if n > 0 {
      Join(h, l / 2, n - 1);
      assert (Shl(h, n) + l) / 2 == Shl(h, n - 1) + l / 2;
      ShrFront(Shl(h, n) + l, n);
    }
  }

  lemma {:induction false} ShrOfLow(x: nat, a: nat, b: nat)
    requires b <= a
    ensures Shr(Low(x, a), b) == Low(Shr(x, b), a - b)
  {
    if b > 0 {
      ShrOfLow(x / 2, a - 1, b - 1);
      ShrFront(Low(x, a), b);
      ShrFront(x, b);
    }
  }

  lemma {:induction false} LowStep(x: nat, n: nat)
    requires n > 0
    ensures Low(x, n) % 2 == x % 2 && Low(x, n) / 2 == Low(x / 2, n - 1)
  {
    FirstBit(x % 2, Low(x / 2, n - 1));
  }

  lemma {:induction false} FirstBit(b: nat, rest: nat)
    requires b < 2
    ensures (b + 2 * rest) % 2 == b && (b + 2 * rest) / 2 == rest
  {}

  lemma {:induction false} LowOfLow(x: nat, a: nat, b: nat)
    requires b <= a
    ensures Low(Low(x, a), b) == Low(x, b)
  {
    if b > 0 {
      LowStep(x, a);
      LowOfLow(x / 2, a - 1, b - 1);
    }
  }

  lemma {:induction false} LowOfShl(x: nat, n: nat, k: nat)
    ensures Low(Shl(x, k), n + k) == Shl(Low(x, n), k)
  {
    if k > 0 { LowOfShl(x, n, k - 1); }
  }

  /** Bits that are cut off later may be cut off before shifting. */
  lemma {:induction false} LowShift(x: nat, v: nat, n: nat, m: nat, k: nat)
    requires v < Pow2(n) && k <= m + n
    ensures Low(Shl(Low(x, m), n) + v, k) == Low(Shl(x, n) + v, k)
    decreases n
  {
    if n == 0 {
      LowOfLow(x, m, k);
    } else if k > 0 {
      assert (Shl(x, n) + v) / 2 == Shl(x, n - 1) + v / 2;
      assert (Shl(Low(x, m), n) + v) / 2 == Shl(Low(x, m), n - 1) + v / 2;
      LowShift(x, v / 2, n - 1, m, k - 1);
    }
  }

  lemma {:induction false} ShlShl(x: nat, a: nat, b: nat)
    ensures Shl(Shl(x, a), b) == Shl(x, a + b)
  {
    if b > 0 { ShlShl(x, a, b - 1); }
  }

  lemma {:induction false} ShlInjective(x: nat, y: nat, n: nat)
    requires Shl(x, n) == Shl(y, n)
    ensures x == y
  {
    if n > 0 { ShlInjective(x, y, n - 1); }
  }

  lemma {:induction false} ShlTimes(x: nat, n: nat)
    ensures Shl(x, n) == x * Pow2(n)
  {
    if n > 0 { ShlTimes(x, n - 1); }
  }

  lemma {:induction false} ShlBound(x: nat, k: nat, n: nat)
    ensures x < Pow2(k) <==> Shl(x, n) < Pow2(k + n)
  {
    if n > 0 { ShlBound(x, k, n - 1); }
  }

  lemma {:induction false} ShrBound(x: nat, k: nat, n: nat)
    requires x < Pow2(k + n)
    ensures Shr(x, n) < Pow2(k)
  {
    LowSplit(x, n);
    ShlBound(Shr(x, n), k, n);
  }

  // ---- Lists as numbers ----

  /** All values are of w bits. */
  predicate Narrow(s: seq<nat>, w: nat) {
    forall i :: 0 <= i < |s| ==> s[i] < Pow2(w)
  }

  /** The number whose digits of w bits are s, the most significant first. */
  function Num(s: seq<nat>, w: nat): nat {
    if s == [] then 0 else Shl(Num(s[..|s| - 1], w), w) + s[|s| - 1]
  }

  /** The len lowest digits of w bits of n. */
  function Digits(n: nat, w: nat, len: nat): (s: seq<nat>)
    ensures |s| == len
    decreases len
  {
    if len == 0 then [] else Digits(Shr(n, w), w, len - 1) + [Low(n, w)]
  }

  lemma {:induction false} DigitsNarrow(n: nat, w: nat, len: nat)
    ensures Narrow(Digits(n, w, len), w)
    decreases len
  {
    if len > 0 {
      DigitsNarrow(Shr(n, w), w, len - 1);
      LowSplit(n, w);
    }
  }

  lemma {:induction false} DigitsOfNum(s: seq<nat>, w: nat)
    requires Narrow(s, w)
    ensures Digits(Num(s, w), w, |s|) == s
  {
    if s != [] {
      var front, d := s[..|s| - 1], s[|s| - 1];
      DigitsOfNum(front, w);
      Join(Num(front, w), d, w);
      assert s == front + [d];
    }
  }

  lemma {:induction false} NumAppend(s: seq<nat>, d: nat, w: nat)
    ensures Num(s + [d], w) == Shl(Num(s, w), w) + d
  {
    assert (s + [d])[..|s|] == s;
  }

  lemma {:induction false} NumOfDigits(n: nat, w: nat, len: nat, bound: nat)
    requires bound == w * len && n < Pow2(bound)
    ensures Num(Digits(n, w, len), w) == n
    decreases len
  {
    if len > 0 {
      Less(w, len);
      ShrBound(n, bound - w, w);
      NumOfDigits(Shr(n, w), w, len - 1, bound - w);
      NumAppend(Digits(Shr(n, w), w, len - 1), Low(n, w), w);
      LowSplit(n, w);
    }
  }

  lemma {:induction false} Less(w: nat, len: nat)
    requires len > 0
    ensures w * len == w * (len - 1) + w && w * (len - 1) >= 0
  {}

  lemma {:induction false} NumBound(s: seq<nat>, w: nat, bound: nat)
    requires Narrow(s, w) && bound == w * |s|
    ensures Num(s, w) < Pow2(bound)
    decreases |s|
  {
    if s != [] {
      Less(w, |s|);
      var front, d := s[..|s| - 1], s[|s| - 1];
      NumBound(front, w, bound - w);
      ShlAdd(Num(front, w), 1, w);
      ShlPow2(w);
      ShlBound(Num(front, w), bound - w, w);
      ShlMonotone(Num(front, w) + 1, Pow2(bound - w), w);
      ShlTimes(Pow2(bound - w), w);
      Pow2Split(bound - w, w);
    }
  }

  lemma {:induction false} ShlMonotone(x: nat, y: nat, n: nat)
    requires x <= y
    ensures Shl(x, n) <= Shl(y, n)
  {
    if n > 0 { ShlMonotone(x, y, n - 1); }
  }

  /** A list is determined by its number and its length. */
  lemma {:induction false} NumInjective(s: seq<nat>, t: seq<nat>, w: nat)
    requires Narrow(s, w) && Narrow(t, w) && |s| == |t| && Num(s, w) == Num(t, w)
    ensures s == t
  {
    DigitsOfNum(s, w);
    DigitsOfNum(t, w);
  }

  // ---- Regrouping ----

  /** With padding: the same bits followed by zeros, in as few values of the new width as hold them. */
  function Padded(data: seq<nat>, from: nat, to: nat): seq<nat>
    requires to > 0
  {
    var bits := |data| * from;
    var len := (bits + to - 1) / to;
    CeilingHolds(bits, to);
    Digits(Shl(Num(data, from), len * to - bits), to, len)
  }

  lemma {:induction false} CeilingHolds(bits: nat, to: nat)
    requires to > 0
    ensures 0 <= (bits + to - 1) / to * to - bits < to
  {}

  /** Without padding: the whole values of the new width, if what is left over is less than a value of the
      old width and all zeros. */
  function Unpadded(data: seq<nat>, from: nat, to: nat): Result<seq<nat>>
    requires to > 0
  {
    var bits := |data| * from;
    var left := bits % to;
    if left >= from || Low(Num(data, from), left) != 0 then Err
    else Ok(Digits(Shr(Num(data, from), left), to, bits / to))
  }

  /** bech32ConvertBits' accumulator after some of the values: it holds the latest bits, of which the lowest
      ones have not been put out yet. */
  ghost predicate Regrouping(data: seq<nat>, from: nat, to: nat, acc: nat, bits: nat, result: seq<nat>)
    requires from + to > 0
  {
    && acc == Low(Num(data, from), from + to - 1) && |result| * to + bits == |data| * from
    && Narrow(result, to) && Num(result, to) == Shr(Num(data, from), bits)
  }

  lemma {:induction false} TakeIn(data: seq<nat>, v: nat, from: nat, to: nat, acc: nat, bits: nat, result: seq<nat>)
    requires 0 < from && 0 < to && v < Pow2(from) && Regrouping(data, from, to, acc, bits, result)
    ensures Regrouping(data + [v], from, to, Low(Or(Shl(acc, from), v), from + to - 1), bits + from, result)
  {
    hide Num, Shl, Shr, Low, Or, Pow2;
    var n := Num(data, from);
    NumAppend(data, v, from);
    ShlTimes(acc, from);
    OrDisjoint(acc, v, from);
    LowShift(n, v, from, from + to - 1, from + to - 1);
    Join(n, v, from);
    ShrAdd(Shl(n, from) + v, from, bits);
    assert (|data| + 1) * from == |data| * from + from;
  }

  lemma {:induction false} PutOut(data: seq<nat>, from: nat, to: nat, acc: nat, bits: nat, result: seq<nat>)
    requires 0 < from && 0 < to && Regrouping(data, from, to, acc, bits, result) && to <= bits < from + to
    ensures Regrouping(data, from, to, acc, bits - to, result + [Low(Shr(acc, bits - to), to)])
  {
    hide Num, Shl, Shr, Low, Pow2;
    var n, left := Num(data, from), bits - to;
    var d := Low(Shr(acc, left), to);
    ShrOfLow(n, from + to - 1, left);
    LowOfLow(Shr(n, left), from + to - 1 - left, to);
    LowSplit(Shr(n, left), to);
    ShrAdd(n, left, to);
    NumAppend(result, d, to);
    assert (|result| + 1) * to == |result| * to + to;
  }

  /** The loop of bech32ConvertBits, over values of the right width. */
  method Regroup(data: seq<nat>, from: nat, to: nat) returns (acc: nat, bits: nat, result: seq<nat>, ok: bool)
    requires 0 < from && 0 < to
    ensures ok <==> Narrow(data, from)
    ensures ok ==> bits < to && Regrouping(data, from, to, acc, bits, result)
  {
    acc, bits, result := 0, 0, [];
    EmptyRegrouping(from, to);
    for i := 0 to |data|
      invariant Narrow(data[..i], from) && bits < to && Regrouping(data[..i], from, to, acc, bits, result)
    {
      if data[i] >= Pow2(from) {
        return acc, bits, result, false;
      }
      assert data[..i + 1] == data[..i] + [data[i]];
      TakeIn(data[..i], data[i], from, to, acc, bits, result);
      acc := Low(Or(Shl(acc, from), data[i]), from + to - 1);
      bits := bits + from;
      while bits >= to
        invariant bits < from + to && Regrouping(data[..i + 1], from, to, acc, bits, result)
      {
        PutOut(data[..i + 1], from, to, acc, bits, result);
        bits := bits - to;
        result := result + [Low(Shr(acc, bits), to)];
      }
    }
    assert data[..|data|] == data;
    ok := true;
  }

  lemma {:induction false} EmptyRegrouping(from: nat, to: nat)
    requires from + to > 0
    ensures Regrouping([], from, to, 0, 0, [])
  {
    LowSplit(0, from + to - 1);
  }

  lemma {:induction false} Quotient(total: nat, len: nat, bits: nat, to: nat)
    requires bits < to && len * to + bits == total
    ensures total / to == len && total % to == bits
    ensures (total + to - 1) / to == if bits == 0 then len else len + 1
  {
    DivUnique(total, to, len, bits);
    if bits == 0 {
      DivUnique(total + to - 1, to, len, to - 1);
    } else {
      assert (len + 1) * to == len * to + to;
      DivUnique(total + to - 1, to, len + 1, bits - 1);
    }
  }

  lemma {:induction false} LastValue(n: nat, acc: nat, bits: nat, from: nat, to: nat)
    requires 0 < from && bits < to && acc == Low(n, from + to - 1)
    ensures Low(Shl(acc, to - bits), to) == Shl(Low(n, bits), to - bits)
    ensures Low(Shl(acc, to - bits), to) == 0 <==> Low(n, bits) == 0
  {
    LowOfShl(acc, bits, to - bits);
    LowOfLow(n, from + to - 1, bits);
    ShlZero(to - bits);
    if Shl(Low(n, bits), to - bits) == 0 { ShlInjective(Low(n, bits), 0, to - bits); }
  }

  lemma {:induction false} NoShift(n: nat)
    ensures Shl(n, 0) == n && Shr(n, 0) == n
  {}

  lemma {:induction false} Pad(data: seq<nat>, from: nat, to: nat, acc: nat, bits: nat, result: seq<nat>)
    requires 0 < from && 0 < to && bits < to && Regrouping(data, from, to, acc, bits, result)
    ensures Padded(data, from, to) == if bits == 0 then result else result + [Low(Shl(acc, to - bits), to)]
  {
    hide Num, Shl, Shr, Low, Digits, Pow2;
    var n := Num(data, from);
    Quotient(|data| * from, |result|, bits, to);
    DigitsOfNum(result, to);
    if bits == 0 {
      NoShift(n);
    } else {
      var d := Low(Shl(acc, to - bits), to);
      assert (|result| + 1) * to == |result| * to + to;
      LastValue(n, acc, bits, from, to);
      LowSplit(Shl(acc, to - bits), to);
      NumAppend(result, d, to);
      LowSplit(n, bits);
      ShlAdd(Shl(Shr(n, bits), bits), Low(n, bits), to - bits);
      ShlShl(Shr(n, bits), bits, to - bits);
      DigitsOfNum(result + [d], to);
    }
  }

  /** bech32ConvertBits. */
  method ConvertBits(data: seq<nat>, from: nat, to: nat, pad: bool) returns (r: Result<seq<nat>>)
    requires 0 < from && 0 < to
    ensures r
         == if !Narrow(data, from) then Err else if pad then Ok(Padded(data, from, to)) else Unpadded(data, from, to)
  {
    var acc, bits, result, ok := Regroup(data, from, to);
    if !ok {
      return Err;
    }
    Pad(data, from, to, acc, bits, result);
    Quotient(|data| * from, |result|, bits, to);
    LastValue(Num(data, from), acc, bits, from, to);
    DigitsOfNum(result, to);
    if pad && bits != 0 {
      result := result + [Low(Shl(acc, to - bits), to)];
    } else if !pad && (bits >= from || Low(Shl(acc, to - bits), to) != 0) {
      return Err;
    }
    r := Ok(result);
  }

  // ---- Round trips ----

  lemma {:induction false} PaddedNum(data: seq<nat>, from: nat, to: nat)
    requires 0 < to && Narrow(data, from)
    ensures 0 <= |Padded(data, from, to)| * to - |data| * from < to
    ensures Num(Padded(data, from, to), to) == Shl(Num(data, from), |Padded(data, from, to)| * to - |data| * from)
  {
    hide Num, Shl, Digits, Pow2;
    var bits := |data| * from;
    CeilingHolds(bits, to);
    var len := (bits + to - 1) / to;
    NumBound(data, from, bits);
    ShlBound(Num(data, from), bits, len * to - bits);
    NumOfDigits(Shl(Num(data, from), len * to - bits), to, len, len * to);
  }

  /** Padding to a smaller width and back gives the original values. */
  lemma {:induction false} PadRoundTrip(data: seq<nat>, from: nat, to: nat)
    requires 0 < to <= from && Narrow(data, from)
    ensures Unpadded(Padded(data, from, to), to, from) == Ok(data) && Narrow(Padded(data, from, to), to)
  {
    hide Num, Shl, Shr, Digits, Pow2;
    var r, n := Padded(data, from, to), Num(data, from);
    PaddedNum(data, from, to);
    var k := |r| * to - |data| * from;
    Quotient(|r| * to, |data|, k, from);
    LowOfShl(n, 0, k);
    ShlZero(k);
    ShrShl(n, k);
    DigitsOfNum(data, from);
    CeilingHolds(|data| * from, to);
    DigitsNarrow(Shl(n, k), to, |r|);
  }

  /** Only one list of values regroups to given ones without padding: what padding those gives. */
  lemma {:induction false} UnpadCanonical(data: seq<nat>, from: nat, to: nat)
    requires 0 < from <= to && Narrow(data, from) && Unpadded(data, from, to).Ok?
    ensures Narrow(Unpadded(data, from, to).value, to) && Padded(Unpadded(data, from, to).value, to, from) == data
  {
    var b, n, bits := Unpadded(data, from, to).value, Num(data, from), |data| * from;
    var left, len := bits % to, bits / to;
    DivBack(bits, to);
    NumBound(data, from, bits);
    ShrBound(n, bits - left, left);
    NumOfDigits(Shr(n, left), to, len, len * to);
    DigitsNarrow(Shr(n, left), to, len);
    LowSplit(n, left);
    DigitsOfNum(data, from);
    DivUnique(len * to + from - 1, from, |data|, from - 1 - left);
  }

  lemma {:induction false} DivBack(x: nat, d: nat)
    requires d > 0
    ensures x == x / d * d + x % d && 0 <= x / d * d <= x
  {}
}
