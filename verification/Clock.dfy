/** How well the driver's time arithmetic tells the time. */
module Clock {
  import opened Bits
  import opened Watchdog

  /** The range in which no unsigned value of jiffies_to_msecs overflows. */
  ghost predicate Fits(hz: nat, j: nat) {
    hz > 0 && 1000 * j < U64 && j + hz < U64 && 1000 * j <= hz * (U32 - 1)
  }

  lemma MulMono(a: nat, b: nat, c: nat)
    requires a <= b
    ensures c * a <= c * b
  {
  }

  function CeilDiv(j: nat, k: nat): nat
    requires k > 0
  {
    (j + k - 1) / k
  }

  function FloorDiv(x: nat, k: nat): nat
    requires k > 0
  {
    x / k
  }

  function Times(a: nat, b: nat): nat {
    a * b
  }

  /** jiffies_to_msecs on unbounded numbers. */
  function Msecs(hz: nat, j: nat): nat
    requires hz > 0
  {
    if hz <= 1000 && 1000 % hz == 0 then Times(FloorDiv(1000, hz), j)
    else if hz > 1000 && hz % 1000 == 0 then CeilDiv(j, hz / 1000)
    else FloorDiv(j * 1000, hz)
  }

  lemma Associate(a: int, b: int, c: int)
    ensures a * (b * c) == (a * b) * c
  {
  }

  lemma Distribute(a: int, b: int, c: int)
    ensures a * (b - c) == a * b - a * c
  {
  }

  lemma RoundUp(j: nat, k: nat)
    requires k > 0
    ensures j <= k * ((j + k - 1) / k) <= j + k - 1
  {
  }

  lemma RoundDown(x: nat, k: nat)
    requires k > 0
    ensures x - k < k * (x / k) <= x
  {
  }

  /** Every HZ branch is within one millisecond of 1000 * j / HZ. */
  lemma MsecsNear(hz: nat, j: nat)
    requires hz > 0
    ensures -(hz as int) < hz * Msecs(hz, j) - 1000 * j < hz
  {
    if hz <= 1000 && 1000 % hz == 0 {
      Associate(hz, 1000 / hz, j);
    } else if hz > 1000 && hz % 1000 == 0 {
      var k := hz / 1000;
      RoundUp(j, k);
      Associate(1000, k, (j + k - 1) / k);
    } else {
      RoundDown(j * 1000, hz);
    }
  }

  lemma MsecsBounded(hz: nat, j: nat)
    requires Fits(hz, j)
    ensures Msecs(hz, j) < U32
  {
    MsecsNear(hz, j);
    hide Msecs;
    var m := Msecs(hz, j);
    if m >= U32 {
      MulMono(U32, m, hz);
    }
  }

  lemma SmallMod(x: int, m: nat)
    requires 0 <= x < m
    ensures x % m == x
  {
  }

  /** In range the driver computes just that. */
  lemma MsecsInRange(hz: nat, j: nat)
    requires Fits(hz, j)
    ensures JiffiesToMsecs(hz, j) == Msecs(hz, j)
  {
    MsecsBounded(hz, j);
    SmallMod(Msecs(hz, j), U64);
    SmallMod(Msecs(hz, j), U32);
    if hz <= 1000 && 1000 % hz == 0 {
    } else if hz > 1000 && hz % 1000 == 0 {
      SmallMod(j + hz / 1000 - 1, U64);
    } else {
      SmallMod(j * 1000, U64);
    }
  }

  lemma DivMono(a: nat, b: nat, k: nat)
    requires a <= b && k > 0
    ensures a / k <= b / k
  {
    RoundDown(a, k);
    RoundDown(b, k);
    if a / k > b / k {
      MulMono(b / k + 1, a / k, k);
    }
  }

  /** More ticks are never fewer milliseconds. */
  lemma MsecsMonotone(hz: nat, a: nat, b: nat)
    requires a <= b && hz > 0
    ensures Msecs(hz, a) <= Msecs(hz, b)
  {
    if hz <= 1000 && 1000 % hz == 0 {
      MulMono(a, b, 1000 / hz);
    } else if hz > 1000 && hz % 1000 == 0 {
      DivMono(a + hz / 1000 - 1, b + hz / 1000 - 1, hz / 1000);
    } else {
      DivMono(a * 1000, b * 1000, hz);
    }
  }

  /** Times of up to 2^31 ms and a bit are in range for any tick rate. */
  lemma FitsShort(hz: nat, j: nat)
    requires 0 < hz < U32 && Msecs(hz, j) <= 0x8000_0000 + 2000
    ensures Fits(hz, j)
  {
    MsecsNear(hz, j);
    hide Msecs;
    MulMono(Msecs(hz, j) + 1, U32 - 1, hz);
    MulMono(hz, U32 - 1, U32 - 1);
    Distribute(hz, Msecs(hz, j) + 1, 1);
  }

  lemma FitsBelow(hz: nat, a: nat, b: nat)
    requires a <= b && Fits(hz, b)
    ensures Fits(hz, a)
  {
  }

  /** An enabled watchdog, and the tick at which it was last restarted. */
  ghost predicate Running(w: Wd) {
    w.status == WDT_STATUS_EN && w.interval < 0x8000_0000
  }

  /**
   A query of a running watchdog returns -1 exactly when it leaves it expired, which is exactly
   when the measured time exceeds the interval by no more than 2^31 ms; the 32-bit result wraps
   beyond that. Otherwise the value is the rest of the interval.
   */
  lemma QueryExact(hz: nat, w: Wd, now: u64)
    requires hz > 0 && Running(w)
    ensures var ms := JiffiesToMsecs(hz, DeltaTime(now, w.onTime));
            var (left, w') := TimeLeft(hz, w, now);
            && (left == -1 <==> w'.status == WDT_STATUS_EXP)
            && (w'.status == WDT_STATUS_EXP <==> w.interval < ms <= w.interval + 0x8000_0000)
            && (ms <= w.interval ==> left == w.interval - ms && w' == w)
  {
    var ms := JiffiesToMsecs(hz, DeltaTime(now, w.onTime));
    var x := w.interval - ms;
    if x < 0 {
      assert x % U32 == x + U32;
    } else {
      assert x % U32 == x;
    }
  }

  /**
   A query of any watchdog returns -1 exactly when it leaves it expired, and 0 when it is off or
   unknown; only an enabled one is changed by it.
   */
  lemma QueryValue(hz: nat, w: Wd, now: u64)
    requires hz > 0
    ensures var (left, w') := TimeLeft(hz, w, now);
            && (left == -1 <==> w'.status == WDT_STATUS_EXP)
            && (w.status == WDT_STATUS_EXP ==> left == -1)
            && (w.status != WDT_STATUS_EN ==> w' == w)
            && (w.status == WDT_STATUS_DIS || w.status == WDT_STATUS_UNKNOWN ==> left == 0)
  {
    hide JiffiesToMsecs, DeltaTime;
  }

  /** Too late a query misses the expiry: with HZ 1000, 100 ms, asked 2^31 + 101 ms after the start. */
  lemma LateQueryMissesExpiry()
    ensures var (left, w') := TimeLeft(1000, Wd(WDT_STATUS_EN, 0, 100), 0x8000_0000 + 101);
            left > 0 && w'.status == WDT_STATUS_EN
  {
    var x := 100 - (0x8000_0000 + 101);
    assert x % U32 == x + U32;
  }

  /**
   Between two restarts the time left never grows, in [0, interval] while the watchdog runs, wrap of
   the counter included.
   */
  lemma TimeLeftFalls(hz: nat, w: Wd, a: nat, b: nat)
    requires Running(w) && a <= b < U64 && Fits(hz, b) && Msecs(hz, b) <= w.interval + 0x8000_0000
    ensures var left := TimeLeft(hz, w, ClockAfter(w.onTime, a));
            var later := TimeLeft(hz, w, ClockAfter(w.onTime, b));
            && later.0 <= left.0 <= w.interval
            && (left.1.status == WDT_STATUS_EN ==> 0 <= left.0)
            && (later.1.status == WDT_STATUS_EN ==> left.1.status == WDT_STATUS_EN)
  {
    var da, db := DeltaTime(ClockAfter(w.onTime, a), w.onTime), DeltaTime(ClockAfter(w.onTime, b), w.onTime);
    DeltaMonotone(w.onTime, a, b);
    DeltaIsElapsed(w.onTime, b);
    FitsBelow(hz, da, b);
    FitsBelow(hz, db, b);
    MsecsInRange(hz, da);
    MsecsInRange(hz, db);
    MsecsMonotone(hz, da, db);
    MsecsMonotone(hz, db, b);
    QueryExact(hz, w, ClockAfter(w.onTime, a));
    QueryExact(hz, w, ClockAfter(w.onTime, b));
  }

  /** The time left is true to within one millisecond and one tick, the tick being lost when the counter wraps. */
  lemma TimeLeftAccurate(hz: nat, w: Wd, ticks: nat)
    requires Running(w) && 0 < hz < U32 && ticks < U64 && Msecs(hz, ticks) <= w.interval
    ensures var left := TimeLeft(hz, w, ClockAfter(w.onTime, ticks)).0;
            -(hz as int) < hz * left - (hz * w.interval - 1000 * ticks) < hz + 1000
  {
    var delta := DeltaTime(ClockAfter(w.onTime, ticks), w.onTime);
    DeltaIsElapsed(w.onTime, ticks);
    FitsShort(hz, ticks);
    FitsBelow(hz, delta, ticks);
    MsecsInRange(hz, delta);
    MsecsMonotone(hz, delta, ticks);
    MsecsNear(hz, delta);
    QueryExact(hz, w, ClockAfter(w.onTime, ticks));
    hide Msecs, TimeLeft, DeltaTime, JiffiesToMsecs;
    var ms := Msecs(hz, delta);
    Distribute(hz, w.interval, ms);
  }

  lemma BackwardDelta(looked: u64, k: nat)
    requires 0 < k < U64
    ensures DeltaTime(looked, (looked + k) % U64) == U64 - if looked + k < U64 then k + 1 else k
  {
    if looked + k >= U64 {
      assert (looked + k) % U64 == looked + k - U64;
    }
  }

  lemma BackwardMsecs(hz: nat, n: nat)
    requires 0 < hz <= 1000 && 1000 % hz == 0 && 0 < n < U64 && 0 < Times(1000 / hz, n) < U32
    ensures JiffiesToMsecs(hz, U64 - n) == U32 - Times(1000 / hz, n)
  {
    var c := 1000 / hz;
    Distribute(c, U64, n);
    assert c * (U64 - n) == U64 * (c - 1) + (U64 - Times(c, n));
    ModUnique(c * (U64 - n), U64, c - 1, U64 - Times(c, n));
    ModUnique(U64 - Times(c, n), U32, U32 - 1, U32 - Times(c, n));
  }

  lemma BackwardLeft(interval: u32, ms: nat)
    requires 0 < ms && interval + ms < 0x8000_0000
    ensures ToInt32(interval - (U32 - ms)) == interval + ms
  {
    ModUnique(interval - (U32 - ms), U32, -1, interval + ms);
  }

  /**
   A query reads the counter before it reads the time of the last restart. If the timer restarts the
   watchdog `k` ticks later in between, then with an HZ that divides 1000 the query returns more
   than the interval by those ticks and one (none if the counter wraps), and leaves the watchdog running.
   */
  lemma InterruptedQuery(hz: nat, interval: u32, looked: u64, k: nat)
    requires 0 < hz <= 1000 && 1000 % hz == 0 && k > 0 && interval + Times(1000 / hz, k + 1) < 0x8000_0000
    ensures var w := Wd(WDT_STATUS_EN, (looked + k) % U64, interval);
            TimeLeft(hz, w, looked) == (interval + Times(1000 / hz, if looked + k < U64 then k + 1 else k), w)
  {
    var n := if looked + k < U64 then k + 1 else k;
    MulMono(1, 1000 / hz, k + 1);
    MulMono(n, k + 1, 1000 / hz);
    MulMono(1, n, 1000 / hz);
    BackwardDelta(looked, k);
    BackwardMsecs(hz, n);
    hide JiffiesToMsecs, DeltaTime, Times;
    BackwardLeft(interval, Times(1000 / hz, n));
  }

  /** With another HZ it may be far off: with HZ 300, one tick and an interval of 100 ms, seventeen days. */
  lemma InterruptedQueryMisleads()
    ensures TimeLeft(300, Wd(WDT_STATUS_EN, 1, 100), 0) == (1488922103, Wd(WDT_STATUS_EN, 1, 100))
  {
    assert DeltaTime(0, 1) == U64 - 2;
    assert JiffiesToMsecs(300, U64 - 2) == 2806045293 by {
      ModUnique((U64 - 2) * 1000, U64, 999, U64 - 2000);
      ModUnique(61489146912365165, U32, 14316557, 2806045293);
    }
    ModUnique(100 - 2806045293, U32, -1, 1488922103);
    hide JiffiesToMsecs, DeltaTime;
  }
}
