/** The per-block difficulty rule after the final cut, and the work fields of a header chain. */
module Difficulty {
  import opened Currency
  import W = Work

  const SECOND: int := 1_000_000_000
  const INT64: int := 0x8000_0000_0000_0000

  type i64 = x: int | -0x8000_0000_0000_0000 <= x < 0x8000_0000_0000_0000

  /** Signed 64-bit wrap-around. */
  function Wrap64(x: int): i64 {
    (x + INT64) % (2 * INT64) - INT64
  }

  /** time.Time.Sub: the difference in nanoseconds, saturated. */
  function Elapsed(to: int, from: int): i64 {
    var d := (to - from) * SECOND;
    if d >= INT64 then INT64 - 1 else if d < -INT64 then -INT64 else d
  }

  /** Division that truncates towards zero. */
  function Quo(a: i64, b: int): (q: i64)
    requires b > 1
  {
    var size: int := if a >= 0 then a else -(a as int);
    ShiftShrinks(size, b);
    var q: int := size / b;
    DivideByMore(size, b);
    if a >= 0 then q else -q
  }

  lemma {:induction false} DivideByMore(a: nat, b: nat)
    requires b > 1
    ensures a / b < INT64 || a > INT64
  {
    ShiftShrinks(a, b);
    if a == INT64 && a / b == a { MulMonotone(2, b, a); }
  }

  /** Conversion to an unsigned word keeps the bits. */
  function ToU64(x: i64): u64 {
    if x < 0 then x + 2 * INT64 else x
  }

  /** A block interval whose triple fits in a duration. */
  type Interval = x: int | 0 < x < 0x2000_0000_0000_0000 witness 1

  /** The target block interval, shifted against the drift and clamped to a factor of three. */
  function TargetInterval(interval: Interval, childHeight: nat, timestamp: int, genesis: int): (t: i64)
    ensures interval / 3 <= t <= 3 * interval
  {
    var expected := Wrap64(interval * Wrap64(childHeight));
    var shift := Quo(Wrap64(expected - Elapsed(timestamp, genesis)), 1000);
    var shifted := Wrap64(interval + shift);
    var capped: i64 := if shifted < 3 * interval then shifted else 3 * interval;
    if capped > interval / 3 then capped else interval / 3
  }

  function MaxAdjust(difficulty: nat): nat {
    if difficulty / 250 > 1 then difficulty / 250 else 1
  }

  function Clamp(x: int, low: int, high: int): int {
    var y := if x < high then x else high;
    if y > low then y else low
  }

  /** The estimated hashrate times the target interval, rounded to the nearest. */
  function Estimate(oakWork: nat, oakTime: i64, target: nat): nat {
    (oakWork * target + ToU64(Quo(oakTime, 2))) / (if oakTime > 1 then oakTime else 1)
  }

  function NextDifficulty(difficulty: nat, oakWork: nat, oakTime: i64, target: nat): (d: nat)
    ensures 1 <= d
    ensures difficulty >= 1 ==> difficulty - MaxAdjust(difficulty) <= d <= difficulty + MaxAdjust(difficulty)
  {
    var adjust := MaxAdjust(difficulty);
    var d := Clamp(Estimate(oakWork, oakTime, target), difficulty - adjust, difficulty + adjust);
    if d > 1 then d else 1
  }

  /** adjustDifficultyFinalCut panics exactly when one of its products or sums leaves 256 bits. */
  method AdjustDifficulty(difficulty: W.Words, oakWork: W.Words, oakTime: i64, target: u64)
    returns (next: W.Words, panicked: bool)
    requires W.Val(difficulty) >= 1
    ensures panicked <==> || W.Val(oakWork) * target + ToU64(Quo(oakTime, 2)) >= W.WORK_LIMIT
                          || W.Val(difficulty) + MaxAdjust(W.Val(difficulty)) >= W.WORK_LIMIT
    ensures !panicked ==> W.Val(next) == NextDifficulty(W.Val(difficulty), W.Val(oakWork), oakTime, target)
  {
    var one: W.Words := [0, 0, 0, 1];
    OneIsOne();
    var failed;
    next, failed := W.MulBy64(oakWork, target);
    if failed {
      return next, true;
    }
    var half, _ := W.MulBy64(one, ToU64(Quo(oakTime, 2)));
    next, failed := W.Add(next, half);
    if failed {
      return next, true;
    }
    next := W.DivBy64(next, if oakTime > 1 then oakTime else 1);
    var adjust := W.DivBy64(difficulty, 250);
    adjust := W.Max(adjust, one);
    var high, low;
    high, failed := W.Add(difficulty, adjust);
    if failed {
      return high, true;
    }
    next := W.Min(next, high);
    low, panicked := W.Sub(difficulty, adjust);
    next := W.Max(next, low);
    next := W.Max(next, one);
  }

  lemma {:induction false} OneIsOne()
    ensures W.Val([0, 0, 0, 1]) == 1
  {
    W.LowIsVal([0, 0, 0, 1]);
    assert W.Low([0, 0, 0, 1], 1) == 1;
    assert W.Low([0, 0, 0, 1], 2) == 1;
    assert W.Low([0, 0, 0, 1], 3) == 1;
  }

  // ---- Header chains ----

  /** updateOakWork */
  function NextOakWork(oakWork: nat, difficulty: nat): nat {
    oakWork - oakWork / 200 + difficulty
  }

  method UpdateOakWork(oakWork: W.Words, difficulty: W.Words) returns (next: W.Words, panicked: bool)
    ensures panicked <==> NextOakWork(W.Val(oakWork), W.Val(difficulty)) >= W.WORK_LIMIT
    ensures !panicked ==> W.Val(next) == NextOakWork(W.Val(oakWork), W.Val(difficulty))
  {
    var decay := W.DivBy64(oakWork, 200);
    var rest, failed := W.Sub(oakWork, decay);
    next, panicked := W.Add(rest, difficulty);
  }

  /** updateOakTime: whole seconds decay by half a percent, and the new block's time is added. */
  function NextOakTime(oakTime: i64, timestamp: int, parent: int): i64 {
    Wrap64(Quo(Wrap64(Quo(oakTime, SECOND) * 995), 1000) * SECOND + Elapsed(timestamp, parent))
  }

  /** The work fields of a state. */
  datatype Head = Head(height: nat, difficulty: nat, totalWork: nat, oakWork: nat, oakTime: i64, timestamp: int)

  datatype Chain = Chain(interval: Interval, genesis: int)

  function ChildHeight(h: Head): nat {
    h.height + 1
  }

  /** ApplyHeader after the final cut, as far as it concerns work. */
  function NextHead(c: Chain, h: Head, timestamp: int): Head {
    var target := TargetInterval(c.interval, ChildHeight(h), timestamp, c.genesis);
    Head(ChildHeight(h), NextDifficulty(h.difficulty, h.oakWork, h.oakTime, target), h.totalWork + h.difficulty,
         NextOakWork(h.oakWork, h.difficulty), NextOakTime(h.oakTime, timestamp, h.timestamp), timestamp)
  }

  /** No 256-bit operation of ApplyHeader overflows. */
  predicate Safe(c: Chain, h: Head, timestamp: int) {
    var target := TargetInterval(c.interval, ChildHeight(h), timestamp, c.genesis);
    && h.oakWork * target + ToU64(Quo(h.oakTime, 2)) < W.WORK_LIMIT
    && h.difficulty + MaxAdjust(h.difficulty) < W.WORK_LIMIT
    && NextOakWork(h.oakWork, h.difficulty) < W.WORK_LIMIT
    && h.totalWork + h.difficulty < W.WORK_LIMIT
  }

  /** The state after the first k headers. */
  function HeadAt(c: Chain, h: Head, timestamps: seq<int>, k: nat): Head
    requires k <= |timestamps|
  {
    if k == 0 then h else NextHead(c, HeadAt(c, h, timestamps, k - 1), timestamps[k - 1])
  }

  /** 2^184 */
  const MAX_DIFFICULTY: nat := 0x1_00000000_00000000_00000000_00000000_00000000_000000

  predicate Bounded(h: Head, B: nat) {
    1 <= h.difficulty <= B && h.oakWork <= 200 * B + 199
  }

  /** A difficulty within 0.4% (or one) of the one before. */
  predicate Near(before: nat, after: nat) {
    before - MaxAdjust(before) <= after <= before + MaxAdjust(before)
  }

  /** One header keeps the oak work bound, moves the difficulty little, and adds work. */
  lemma {:induction false} HeaderStep(c: Chain, h: Head, timestamp: int, B: nat)
    requires Bounded(h, B)
    ensures var n := NextHead(c, h, timestamp);
            && n.difficulty >= 1 && n.oakWork <= 200 * B + 199
            && n.totalWork == h.totalWork + h.difficulty > h.totalWork
            && Near(h.difficulty, n.difficulty)
  {}

  lemma {:induction false} BoundedIsSafe(c: Chain, h: Head, timestamp: int, B: nat)
    requires Bounded(h, B) && B <= MAX_DIFFICULTY && h.totalWork + B < W.WORK_LIMIT
    ensures Safe(c, h, timestamp)
  {
    EstimateFits(h.oakWork, TargetInterval(c.interval, ChildHeight(h), timestamp, c.genesis), ToU64(Quo(h.oakTime, 2)));
  }

  lemma {:induction false} EstimateFits(oakWork: nat, target: nat, half: nat)
    requires oakWork <= 200 * MAX_DIFFICULTY + 199 && target < INT64 && half < WORD
    ensures oakWork * target + half < W.WORK_LIMIT
  {
    MulMonotone(oakWork, 200 * MAX_DIFFICULTY + 199, target);
  }

  /** Along every header chain whose difficulty never exceeds B, difficulty stays positive and moves by
      at most 0.4% (or one), oak work stays within 200 B + 199, total work grows by at least one and at
      most B per block, and with B up to 2^184 nothing panics, whatever the timestamps. */
  lemma {:induction false} HeaderChain(c: Chain, h: Head, timestamps: seq<int>, B: nat, k: nat)
    requires k <= |timestamps| && Bounded(h, B)
    requires forall i :: 0 <= i <= |timestamps| ==> HeadAt(c, h, timestamps, i).difficulty <= B
    ensures Bounded(HeadAt(c, h, timestamps, k), B)
    ensures h.totalWork + k <= HeadAt(c, h, timestamps, k).totalWork <= h.totalWork + k * B
    ensures B <= MAX_DIFFICULTY && h.totalWork + (k + 1) * B < W.WORK_LIMIT && k < |timestamps| ==>
              Safe(c, HeadAt(c, h, timestamps, k), timestamps[k])
    ensures k < |timestamps| ==>
              Near(HeadAt(c, h, timestamps, k).difficulty, HeadAt(c, h, timestamps, k + 1).difficulty)
    decreases k
  {
    if k > 0 {
      HeaderChain(c, h, timestamps, B, k - 1);
      HeaderStep(c, HeadAt(c, h, timestamps, k - 1), timestamps[k - 1], B);
      assert k * B == (k - 1) * B + B;
    }
    assert HeadAt(c, h, timestamps, k).difficulty <= B;
    assert (k + 1) * B == k * B + B;
    if B <= MAX_DIFFICULTY && h.totalWork + (k + 1) * B < W.WORK_LIMIT && k < |timestamps| {
      BoundedIsSafe(c, HeadAt(c, h, timestamps, k), timestamps[k], B);
    }
    if k < |timestamps| {
      HeaderStep(c, HeadAt(c, h, timestamps, k), timestamps[k], B);
    }
  }

  // ---- Headers on 256-bit words ----

  /** The work fields as they are stored. */
  datatype Fields = Fields(height: nat, difficulty: W.Words, totalWork: W.Words, oakWork: W.Words, oakTime: i64,
                           timestamp: int)

  function HeadOf(f: Fields): Head {
    Head(f.height, W.Val(f.difficulty), W.Val(f.totalWork), W.Val(f.oakWork), f.oakTime, f.timestamp)
  }

  /** ApplyHeader computes the next head, and panics exactly when one of its operations overflows. */
  method ApplyHeader(c: Chain, f: Fields, timestamp: int) returns (next: Fields, panicked: bool)
    requires W.Val(f.difficulty) >= 1
    ensures panicked <==> !Safe(c, HeadOf(f), timestamp)
    ensures !panicked ==> HeadOf(next) == NextHead(c, HeadOf(f), timestamp)
  {
    next := f;
    var totalWork, difficulty, oakWork, failed;
    totalWork, failed := W.Add(f.totalWork, f.difficulty);
    if failed {
      return next, true;
    }
    var target := TargetInterval(c.interval, f.height + 1, timestamp, c.genesis);
    difficulty, failed := AdjustDifficulty(f.difficulty, f.oakWork, f.oakTime, target);
    if failed {
      return next, true;
    }
    var oakTime := NextOakTime(f.oakTime, timestamp, f.timestamp);
    oakWork, panicked := UpdateOakWork(f.oakWork, f.difficulty);
    next := Fields(f.height + 1, difficulty, totalWork, oakWork, oakTime, timestamp);
  }

  /** Applying any number of headers follows the chain of heads; while the difficulty is at most B, up to
      2^184, and the total work fits, nothing panics. */
  method ApplyHeaders(c: Chain, f: Fields, timestamps: seq<int>, ghost B: nat) returns (last: Fields, panicked: bool)
    requires Bounded(HeadOf(f), B) && forall i :: 0 <= i <= |timestamps| ==>
               HeadAt(c, HeadOf(f), timestamps, i).difficulty <= B
    ensures !panicked ==> HeadOf(last) == HeadAt(c, HeadOf(f), timestamps, |timestamps|)
    ensures B <= MAX_DIFFICULTY && W.Val(f.totalWork) + (|timestamps| + 1) * B < W.WORK_LIMIT ==> !panicked
  {
    last, panicked := f, false;
    for k := 0 to |timestamps|
      invariant !panicked && HeadOf(last) == HeadAt(c, HeadOf(f), timestamps, k)
    {
      HeaderChain(c, HeadOf(f), timestamps, B, k);
      MulMonotone(k + 1, |timestamps| + 1, B);
      last, panicked := ApplyHeader(c, last, timestamps[k]);
      if panicked {
        return;
      }
    }
  }

  /** SufficientlyHeavierThan: more total work by over a fifth of the other's difficulty; adding the two
      panics exactly when the sum does not fit. */
  method SufficientlyHeavier(totalWork: W.Words, other: W.Words, difficulty: W.Words)
    returns (heavier: bool, panicked: bool)
    ensures panicked <==> W.Val(other) + W.Val(difficulty) / 5 >= W.WORK_LIMIT
    ensures !panicked ==> (heavier <==> W.Val(totalWork) > W.Val(other) + W.Val(difficulty) / 5)
  {
    var fifth := W.DivBy64(difficulty, 5);
    var bar;
    bar, panicked := W.Add(other, fifth);
    W.CmpIsOrder(totalWork, bar);
    heavier := W.Cmp(totalWork, bar) > 0;
  }
}
