/** Rounding a requested watchdog timeout to one the hardware has: 100 ms times a power of two. */
module Timeout {
  import opened Bits
  import opened Codes
  import opened Watchdog

  /** The timeout after wdt_on has clamped it to what the hardware covers. */
  function Clamp(timeout: u32): (t: nat)
    ensures TIMEOUT_UNIT <= t <= WDT_TIMEOUT_MAX
  {
    if timeout < TIMEOUT_UNIT then TIMEOUT_UNIT
    else if timeout > WDT_TIMEOUT_MAX then WDT_TIMEOUT_MAX
    else timeout
  }

  /**
   What a request for `timeout` milliseconds may expect: never less time than asked for, and never
   twice as much, as far as the hardware goes; its shortest interval for anything shorter, and its longest for
   anything longer.
   */
  ghost predicate Serves(timeout: u32, interval: int) {
    && (timeout <= 3276800 ==> timeout <= interval)
    && (timeout >= 100 ==> interval < 2 * timeout)
    && (timeout <= 100 ==> interval == 100)
    && (timeout > 3276800 ==> interval == 3276800)
  }

  /** `n` is the least step whose interval covers `t`. */
  ghost predicate Least(n: nat, t: nat) {
    t <= TIMEOUT_UNIT * Pow2(n) && forall m: nat :: m < n ==> TIMEOUT_UNIT * Pow2(m) < t
  }

  /** `rest` is `whole >> n`. */
  ghost predicate Shifted(whole: nat, n: nat, rest: nat) {
    Pow2(n) * rest <= whole < Pow2(n) * (rest + 1)
  }

  /** The loop of wdt_on: shift right until nothing is left, counting. */
  method HighestBit(whole: nat) returns (n: nat)
    requires whole >= 1
    ensures Pow2(n) <= whole < Pow2(n + 1)
  {
    assert Pow2(0) == 1 && Shifted(whole, 0, whole);
    hide Pow2, Shifted;
    ShiftOnce(whole, 0, whole);
    var rest: nat := whole / 2;
    n := 0;
    while rest != 0
      invariant Pow2(n) <= whole && Shifted(whole, n + 1, rest)
      decreases rest
    {
      ShiftOnce(whole, n + 1, rest);
      n := n + 1;
      rest := rest / 2;
    }
    ShiftedOut(whole, n + 1);
  }

  lemma ShiftOnce(whole: nat, n: nat, rest: nat)
    requires rest >= 1 && Shifted(whole, n, rest)
    ensures Pow2(n) <= whole && Shifted(whole, n + 1, rest / 2)
  {
    var p := Pow2(n);
    assert Pow2(n + 1) == 2 * p;
    hide Pow2;
    Halve(p, rest);
    Below(p, 1, rest);
  }

  lemma ShiftedOut(whole: nat, n: nat)
    requires Shifted(whole, n, 0)
    ensures whole < Pow2(n)
  {
  }

  /** wdt_on's step: the highest bit of timeout / 100, and one more if that falls short. */
  method StepFor(timeout: u32) returns (n: nat)
    ensures Least(n, Clamp(timeout)) && Serves(timeout, TIMEOUT_UNIT * Pow2(n))
  {
    var t := Clamp(timeout);
    n := HighestBit(t / 100);
    RoundedUp(n, t);
    if t > Pow2(n) * 100 {
      n := n + 1;
    }
    LeastServes(timeout, n);
  }

  lemma LeastServes(timeout: u32, n: nat)
    requires Least(n, Clamp(timeout))
    ensures Serves(timeout, TIMEOUT_UNIT * Pow2(n))
  {
    LeastBounds(n, Clamp(timeout));
    if timeout <= TIMEOUT_UNIT {
      LeastAtMost(n, 0, Clamp(timeout));
    }
    hide Pow2;
  }

  /** One step at most serves a request. */
  lemma ServesOnce(timeout: u32, n: nat, m: nat)
    requires Serves(timeout, TIMEOUT_UNIT * Pow2(n)) && Serves(timeout, TIMEOUT_UNIT * Pow2(m))
    ensures n == m
  {
    if n < m {
      ServesAbove(timeout, n, m);
    } else if m < n {
      ServesAbove(timeout, m, n);
    }
  }

  lemma ServesAbove(timeout: u32, n: nat, m: nat)
    requires n < m && Serves(timeout, TIMEOUT_UNIT * Pow2(n))
    ensures !Serves(timeout, TIMEOUT_UNIT * Pow2(m))
  {
    Pow2Monotone(n + 1, m);
    assert Pow2(n + 1) == 2 * Pow2(n);
    hide Pow2;
  }

  lemma RoundedUp(k: nat, t: nat)
    requires Pow2(k) <= t / 100 < Pow2(k + 1)
    ensures t > TIMEOUT_UNIT * Pow2(k) ==> Least(k + 1, t)
    ensures t <= TIMEOUT_UNIT * Pow2(k) ==> Least(k, t)
  {
    forall m: nat | m < k ensures TIMEOUT_UNIT * Pow2(m) < t {
      Pow2Monotone(m + 1, k);
    }
  }

  lemma Halve(p: nat, rest: nat)
    ensures (2 * p) * (rest / 2) <= p * rest
    ensures p * (rest + 1) <= (2 * p) * (rest / 2 + 1)
  {
    var h := rest / 2;
    assert (2 * p) * h == p * (2 * h);
    assert (2 * p) * (h + 1) == p * (2 * h + 2);
    Below(p, 2 * h, rest);
    Below(p, rest + 1, 2 * h + 2);
  }

  lemma Below(p: nat, a: nat, b: nat)
    requires a <= b
    ensures p * a <= p * b
  {
  }

  lemma LeastAtMost(n: nat, m: nat, t: nat)
    requires Least(n, t) && t <= TIMEOUT_UNIT * Pow2(m)
    ensures n <= m
  {
  }

  lemma LeastUnique(n: nat, n': nat, t: nat)
    requires Least(n, t) && Least(n', t)
    ensures n == n'
  {
    LeastAtMost(n, n', t);
    LeastAtMost(n', n, t);
  }

  lemma TopStep()
    ensures TIMEOUT_UNIT * Pow2(TIMEOUT_MAX_STEP) == WDT_TIMEOUT_MAX
  {
    SmallPowers();
    assert Pow2(12) == 4096;
    assert Pow2(15) == 32768;
  }

  lemma LeastBounds(n: nat, t: nat)
    requires Least(n, t) && TIMEOUT_UNIT <= t <= WDT_TIMEOUT_MAX
    ensures n <= TIMEOUT_MAX_STEP
    ensures TIMEOUT_UNIT <= TIMEOUT_UNIT * Pow2(n) <= WDT_TIMEOUT_MAX
    ensures TIMEOUT_UNIT * Pow2(n) < 2 * t
  {
    TopStep();
    LeastAtMost(n, TIMEOUT_MAX_STEP, t);
    Pow2Monotone(n, TIMEOUT_MAX_STEP);
    if n > 0 {
      assert TIMEOUT_UNIT * Pow2(n - 1) < t;
    }
  }

  function LeastFrom(t: nat, n: nat): (k: nat)
    requires t <= WDT_TIMEOUT_MAX && n <= TIMEOUT_MAX_STEP
    ensures k <= TIMEOUT_MAX_STEP
    decreases TIMEOUT_MAX_STEP - n
  {
    if t <= TIMEOUT_UNIT * Pow2(n) || n == TIMEOUT_MAX_STEP then n else LeastFrom(t, n + 1)
  }

  /** The step and the interval wdt_on settles on, as functions of the request. */
  function StepOf(timeout: u32): (n: nat)
    ensures n <= TIMEOUT_MAX_STEP
  {
    LeastFrom(Clamp(timeout), 0)
  }

  function IntervalOf(timeout: u32): (interval: u32)
    ensures interval <= WDT_TIMEOUT_MAX
  {
    TopStep();
    Pow2Monotone(StepOf(timeout), TIMEOUT_MAX_STEP);
    TIMEOUT_UNIT * Pow2(StepOf(timeout))
  }

  lemma {:induction false} LeastFromIsLeast(t: nat, n: nat)
    requires t <= WDT_TIMEOUT_MAX && n <= TIMEOUT_MAX_STEP
    requires forall m: nat :: m < n ==> TIMEOUT_UNIT * Pow2(m) < t
    ensures Least(LeastFrom(t, n), t)
    decreases TIMEOUT_MAX_STEP - n
  {
    TopStep();
    if t > TIMEOUT_UNIT * Pow2(n) && n < TIMEOUT_MAX_STEP {
      LeastFromIsLeast(t, n + 1);
    }
  }

  /**
   What set_bypass_wd promises: the interval used serves the request, covers what it is clamped to by
   less than a factor of two, and is one of the sixteen steps of the hardware.
   */
  lemma RoundingCovers(timeout: u32)
    ensures Least(StepOf(timeout), Clamp(timeout)) && StepOf(timeout) <= TIMEOUT_MAX_STEP
    ensures Clamp(timeout) <= IntervalOf(timeout) < 2 * Clamp(timeout)
    ensures IntervalOf(timeout) <= WDT_TIMEOUT_MAX && Serves(timeout, IntervalOf(timeout))
  {
    LeastFromIsLeast(Clamp(timeout), 0);
    LeastBounds(StepOf(timeout), Clamp(timeout));
    LeastServes(timeout, StepOf(timeout));
  }

  /** A longer request never gets a shorter interval. */
  lemma RoundingMonotone(a: u32, b: u32)
    requires a <= b
    ensures StepOf(a) <= StepOf(b) && IntervalOf(a) <= IntervalOf(b)
  {
    RoundingCovers(a);
    RoundingCovers(b);
    LeastAtMost(StepOf(a), StepOf(b), Clamp(a));
    Pow2Monotone(StepOf(a), StepOf(b));
  }

  /** Asking for an interval the hardware has gives that interval. */
  lemma RoundingIdempotent(timeout: u32)
    ensures IntervalOf(IntervalOf(timeout)) == IntervalOf(timeout)
  {
    RoundingCovers(timeout);
    StepIsItsOwn(StepOf(timeout));
  }

  /** The command byte `WDT_ON | n`. */
  function WdtOnCommand(n: nat): (cmd: byte)
    requires n <= TIMEOUT_MAX_STEP
  {
    ((WDT_ON as bv8) | (n as bv8)) as int
  }

  lemma WdtOnCommandIsSum(n: nat)
    requires n <= TIMEOUT_MAX_STEP
    ensures WdtOnCommand(n) == WDT_ON + n && WdtOnCommand(n) <= 0x1f && WdtOnCommand(n) % 16 == n
  {
    assert n in {0, 1, 2, 3, 4, 5, 6, 7, 8, 9, 10, 11, 12, 13, 14, 15};
  }

  // ----- the capability word -----

  const WDT_STEP_TIME: bv32 := 0x10

  function WdMinTimeGet(desc: bv32): bv32 {
    desc & 0xf
  }

  function WdStepCountGet(desc: bv32): bv32 {
    (desc >> 5) & 0xf
  }

  /** A descriptor that announces doubling steps of 100 ms, numbered by four bits. */
  predicate DoublingSteps(desc: bv32) {
    WdMinTimeGet(desc) == 1 && desc & WDT_STEP_TIME != 0 && WdStepCountGet(desc) == 4
  }

  /** get_wd_set_caps_fn: not for Intel parts or slave ports; the loop counts the bits that number the steps. */
  method WdSetCaps(intel: bool, controlling: bool) returns (ok: bool, desc: bv32)
    ensures ok == (!intel && controlling)
    ensures ok ==> DoublingSteps(desc)
  {
    ok, desc := false, 0;
    if intel {
      return;
    }
    var stepValue: bv32, bitCount: bv32 := (TIMEOUT_MAX_STEP + 1) as bv32, 0;
    stepValue := stepValue >> 1;
    while stepValue != 0
      invariant stepValue in {8, 4, 2, 1, 0}
      invariant stepValue == 8 ==> bitCount == 0
      invariant stepValue == 4 ==> bitCount == 1
      invariant stepValue == 2 ==> bitCount == 2
      invariant stepValue == 1 ==> bitCount == 3
      invariant stepValue == 0 ==> bitCount == 4
      decreases stepValue
    {
      bitCount := bitCount + 1;
      stepValue := stepValue >> 1;
    }
    if controlling {
      ok := true;
      desc := ((bitCount & 0xf) << 5) | WDT_STEP_TIME | ((TIMEOUT_UNIT / 100) as bv32 & 0xf);
    }
  }

  /**
   The descriptor tells the truth: the intervals wdt_on can choose are WD_MIN_TIME * 100 * 2^X
   for X below 2^WD_STEP_COUNT, all of them and no others.
   */
  lemma CapsDescribeIntervals(desc: bv32, interval: nat)
    requires DoublingSteps(desc)
    ensures (exists timeout: u32 :: IntervalOf(timeout) == interval)
        <==> (exists x: nat ::
                x < Pow2(WdStepCountGet(desc) as nat) && interval == WdMinTimeGet(desc) as nat * 100 * Pow2(x))
  {
    SmallPowers();
    if exists timeout: u32 :: IntervalOf(timeout) == interval {
      var timeout: u32 :| IntervalOf(timeout) == interval;
      RoundingCovers(timeout);
      var x := StepOf(timeout);
      assert x < Pow2(WdStepCountGet(desc) as nat) && interval == WdMinTimeGet(desc) as nat * 100 * Pow2(x);
    }
    if x: nat :| x < Pow2(WdStepCountGet(desc) as nat) && interval == WdMinTimeGet(desc) as nat * 100 * Pow2(x) {
      TopStep();
      Pow2Monotone(x, TIMEOUT_MAX_STEP);
      StepIsItsOwn(x);
      assert IntervalOf(interval) == interval;
    }
  }

  lemma PowerIsLeast(x: nat)
    ensures Least(x, TIMEOUT_UNIT * Pow2(x))
  {
    forall m: nat | m < x ensures TIMEOUT_UNIT * Pow2(m) < TIMEOUT_UNIT * Pow2(x) {
      Pow2Monotone(m + 1, x);
    }
  }

  lemma StepIsItsOwn(x: nat)
    requires x <= TIMEOUT_MAX_STEP && TIMEOUT_UNIT * Pow2(x) <= WDT_TIMEOUT_MAX
    ensures IntervalOf(TIMEOUT_UNIT * Pow2(x)) == TIMEOUT_UNIT * Pow2(x)
  {
    var t: u32 := TIMEOUT_UNIT * Pow2(x);
    PowerIsLeast(x);
    hide LeastFrom, Least, StepOf, Pow2;
    RoundingCovers(t);
    LeastUnique(StepOf(t), x, t);
  }
}
