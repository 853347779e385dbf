/**
 The driver's picture of the watchdog in the PIC: when it was last restarted, how long it
 runs, and whether it is off, on or has expired. Only the clock and the pure arithmetic
 are here; the functions that talk to the PIC are in Bus.
 */
module Watchdog {
  const WDT_STATUS_EXP := -2
  const WDT_STATUS_UNKNOWN := -1
  const WDT_STATUS_DIS := 0
  const WDT_STATUS_EN := 1
  const TIMEOUT_UNIT := 100
  const TIMEOUT_MAX_STEP := 15
  const WDT_TIMEOUT_MAX := 3276800

  const U32: nat := 0x1_0000_0000
  const U64: nat := 0x1_0000_0000_0000_0000

  type u32 = x: int | 0 <= x < U32
  type u64 = x: int | 0 <= x < U64

  // ----- elapsed time -----

  /** `(curr >= on) ? curr - on : ~on + curr` on unsigned 64-bit counters. */
  function DeltaTime(curr: u64, on: u64): u64 {
    if curr >= on then curr - on else (U64 - 1 - on) + curr
  }

  /** The kernel's jiffies_to_msecs, cut to 32 bits by its return type, for a tick rate `hz`. */
  function JiffiesToMsecs(hz: nat, j: u64): u32
    requires hz > 0
  {
    var raw :=
      if hz <= 1000 && 1000 % hz == 0 then 1000 / hz * j
      else if hz > 1000 && hz % 1000 == 0 then (j + hz / 1000 - 1) % U64 / (hz / 1000)
      else j * 1000 % U64 / hz;
    raw % U64 % U32
  }

  /** The assignment of an unsigned 64-bit difference to an `int`. */
  function ToInt32(x: int): (r: int)
    ensures -0x8000_0000 <= r < 0x8000_0000
    ensures r % U32 == x % U32
  {
    var low := x % U32;
    if low < 0x8000_0000 then low else low - U32
  }

  datatype Wd = Wd(status: int, onTime: u64, interval: u32)

  /** wdt_time_left: the value returned and the status it leaves. */
  function TimeLeft(hz: nat, w: Wd, now: u64): (int, Wd)
    requires hz > 0
  {
    if w.status == WDT_STATUS_EN then
      var left := ToInt32(w.interval - JiffiesToMsecs(hz, DeltaTime(now, w.onTime)));
      if left < 0 then (-1, w.(status := WDT_STATUS_EXP)) else (left, w)
    else if w.status == WDT_STATUS_EXP then (-1, w)
    else (0, w)
  }

  /** A kick that reaches the PIC restarts the count of an enabled watchdog. */
  function Reloaded(w: Wd, now: u64, sent: bool): Wd {
    if sent && w.status == WDT_STATUS_EN then w.(onTime := now) else w
  }

  /** `(HZ * reset_time) / 1000`, computed on 32 bits. */
  function RearmTicks(hz: nat, resetTime: u32): u32 {
    (hz * resetTime) % U32 / 1000
  }

  /** wd_reset_timer on the driver's fields; `able` says that kicks are possible at all. */
  function TimerFire(hz: nat, w: Wd, expires: u64, resetTime: u32, now: u64, busy: bool, able: bool): (Wd, u64) {
    if busy then (w, (now + 1) % U64)
    else (Reloaded(w, now, able), if resetTime != 0 then (now + RearmTicks(hz, resetTime)) % U64 else expires)
  }

  /** What the driver does not record: the ticks gone by, how often the timer has run, and its last run. */
  datatype Timing = Timing(clock: nat, fires: nat, lastFire: nat, lastBusy: bool)

  /** The timer at some earlier moment. */
  datatype Noted = Noted(clock: nat, fires: nat, expires: u64)

  /** The ticks for which a run of the timer puts it off. */
  function PutOff(hz: nat, resetTime: u32, busy: bool): u32 {
    if busy then 1 else RearmTicks(hz, resetTime)
  }

  /**
   The counter shows the clock, and the timer is set for when it was, unless it has run: then for a
   retry or a period after its last run, which was since.
   */
  ghost predicate TimerKept(hz: nat, resetTime: u32, noted: Noted, t: Timing, jiffies: u64, expires: u64) {
    && jiffies == t.clock % U64
    && noted.clock <= t.clock && noted.fires <= t.fires
    && if t.fires == noted.fires then expires == noted.expires
       else noted.clock <= t.lastFire <= t.clock
            && (resetTime != 0 ==> expires == (t.lastFire + PutOff(hz, resetTime, t.lastBusy)) % U64)
  }

  lemma AddShown(a: nat, b: nat)
    ensures (a % U64 + b) % U64 == (a + b) % U64
  {
  }

  lemma TimerNoted(hz: nat, resetTime: u32, noted: Noted, t: Timing, jiffies: u64, expires: u64)
    requires TimerKept(hz, resetTime, noted, t, jiffies, expires)
    ensures TimerKept(hz, resetTime, Noted(t.clock, t.fires, expires), t, jiffies, expires)
  {
  }

  lemma TimerTicks(hz: nat, resetTime: u32, noted: Noted, t: Timing, jiffies: u64, expires: u64, ticks: nat)
    requires TimerKept(hz, resetTime, noted, t, jiffies, expires)
    ensures TimerKept(hz, resetTime, noted, t.(clock := t.clock + ticks), (jiffies + ticks) % U64, expires)
  {
    AddShown(t.clock, ticks);
    hide PutOff;
  }

  /** The timer at a run of its own. */
  lemma TimerRuns(hz: nat, w: Wd, resetTime: u32, noted: Noted, t: Timing, jiffies: u64, expires: u64, busy: bool,
                  able: bool)
    requires TimerKept(hz, resetTime, noted, t, jiffies, expires)
    ensures TimerKept(hz, resetTime, noted, Timing(t.clock, t.fires + 1, t.clock, busy), jiffies,
                      TimerFire(hz, w, expires, resetTime, jiffies, busy, able).1)
  {
    AddShown(t.clock, PutOff(hz, resetTime, busy));
    hide RearmTicks;
  }

  /** The clock value `ticks` after `on`, as the 64-bit counter shows it. */
  function ClockAfter(on: u64, ticks: nat): u64 {
    (on + ticks) % U64
  }

  /** The driver's delta is the true number of ticks, or one less once the counter has wrapped. */
  lemma DeltaIsElapsed(on: u64, ticks: nat)
    requires ticks < U64
    ensures DeltaTime(ClockAfter(on, ticks), on) == if on + ticks < U64 then ticks else ticks - 1
  {
    if on + ticks >= U64 {
      assert ClockAfter(on, ticks) == on + ticks - U64;
    }
  }

  /** Later queries never see less time gone, not even across the wrap. */
  lemma DeltaMonotone(on: u64, a: nat, b: nat)
    requires a <= b < U64
    ensures DeltaTime(ClockAfter(on, a), on) <= DeltaTime(ClockAfter(on, b), on)
  {
    DeltaIsElapsed(on, a);
    DeltaIsElapsed(on, b);
  }
}
