/**
 The auto-reset timer against the watchdog, over whole runs from any state of the two. Ticks are
 counted without wrap here; the driver sees them through its 64-bit counter. A due timer fires
 before the tick ends; a wdt_on takes time, and the timer may fire while it does.
 */
module AutoReset {
  import opened Bits
  import opened Codes
  import opened Watchdog
  import opened Clock
  import opened Timeout
  import opened Device
  import opened Pins
  import WdHistory

  const WDT_AUTO_MIN_INT := 500

  /**
   The watchdog as the driver records it, when it was last restarted or wdt_on last began, the
   timer, and whether a wdt_on is under way.
   */
  datatype Run = Run(w: Wd, restarted: nat, now: nat, resetTime: u32, armed: bool, due: nat, misses: nat,
                     opening: bool)

  datatype Move =
    | Tick
    | Fire(busy: bool)
    | Query                       // any call that asks for the time left
    | Kick                        // a kick from elsewhere
    | EnableBegins                // wdt_on: off for now, and the time is taken
    | EnableEnds(timeout: u32)    // wdt_on: the command is out, the interval counts
    | Disable                     // wdt_off
    | SetAuto(param: u32)         // set_bypass_wd_auto

  /**
   What a run keeps to: the timer finds the bus busy at most `bound` times in a row, a wdt_on takes at
   most `span` ticks, and settings made on the way leave at most `gap` ticks between kicks and give the
   watchdog at least `least` milliseconds.
   */
  datatype Limits = Limits(bound: nat, span: nat, gap: nat, least: nat)

  function Max(a: nat, b: nat): nat {
    if a < b then b else a
  }

  /** The number of ticks after which a timer armed for counter value `expires` fires. */
  function TicksUntil(now: nat, expires: u64): (t: nat)
    ensures t >= 1
  {
    Max(1, (expires - now) % U64)
  }

  /**
   set_bypass_wd_auto on the driver's fields: a changed period is stored, and a nonzero one makes the
   timer due at once.
   */
  function AutoSet(resetTime: u32, expires: u64, now: u64, intel: bool, param: u32): (u32, u64) {
    if param == resetTime then (resetTime, expires)
    else (if intel then Max(WDT_AUTO_MIN_INT, param) else param, if param != 0 then now else expires)
  }

  /** The timer interrupt of a tick comes before a call that could put the timer off. */
  predicate Enabled(r: Run, k: Limits, m: Move) {
    match m
    case Tick => (r.armed ==> r.now < r.due) && (r.opening ==> r.now < r.restarted + k.span)
    case Fire(busy) => r.armed && r.now == r.due && (busy ==> r.misses < k.bound)
    case EnableBegins => !r.opening
    case EnableEnds(_) => r.opening
    case Disable => !r.opening
    case SetAuto(_) => r.armed ==> r.now < r.due
    case _ => true
  }

  /** One call on the driver's watchdog fields. */
  function Act(hz: nat, r: Run, call: WdHistory.Call): Wd
    requires hz > 0
  {
    WdHistory.Step(hz, PXG4BPFI_VER, r.w, WdHistory.Timed(r.now, call))
  }

  function Make(hz: nat, r: Run, m: Move): Run
    requires hz > 0
  {
    var shown: u64 := r.now % U64;
    var since := if r.w.status == WDT_STATUS_EN then r.now else r.restarted;
    match m
    case Tick => r.(now := r.now + 1)
    case Fire(busy) =>
      var (w, expires) := TimerFire(hz, r.w, r.due % U64, r.resetTime, shown, busy, true);
      var due := r.now + TicksUntil(r.now, expires);
      if busy then r.(w := w, due := due, misses := r.misses + 1)
      else r.(w := w, restarted := since, armed := r.resetTime != 0, due := due, misses := 0)
    case Query => r.(w := Act(hz, r, WdHistory.Query))
    case Kick => r.(w := Act(hz, r, WdHistory.Kick(true)), restarted := since)
    case EnableBegins => r.(w := Act(hz, r, WdHistory.OnBegins), restarted := r.now, opening := true)
    case EnableEnds(timeout) => r.(w := Act(hz, r, WdHistory.OnEnds(timeout)), opening := false)
    case Disable => r.(w := Act(hz, r, WdHistory.TurnOff))
    case SetAuto(param) =>
      var (resetTime, expires) := AutoSet(r.resetTime, r.due % U64, shown, false, param);
      if param == r.resetTime || param == 0 then r.(resetTime := resetTime)
      else r.(resetTime := resetTime, armed := true, due := r.now + TicksUntil(r.now, expires))
  }

  /** The ticks by which a free run of the timer puts it off. */
  function Period(hz: nat, resetTime: u32): nat {
    Max(1, RearmTicks(hz, resetTime))
  }

  /** The longest a period leaves the watchdog without a kick: the rearm ticks and the busy ticks after them. */
  function Gap(hz: nat, resetTime: u32, bound: nat): nat {
    Period(hz, resetTime) + bound
  }

  /** Settings made on the way keep to the limits, and none switches auto-reset off. */
  ghost predicate Allowed(hz: nat, k: Limits, m: Move) {
    match m
    case EnableEnds(timeout) => k.least <= IntervalOf(timeout)
    case SetAuto(param) => param != 0 && Gap(hz, param, k.bound) <= k.gap
    case _ => true
  }

  ghost predicate Legal(hz: nat, k: Limits, r: Run, moves: seq<Move>)
    requires hz > 0
    decreases |moves|
  {
    moves == []
    || (Enabled(r, k, moves[0]) && Allowed(hz, k, moves[0]) && Legal(hz, k, Make(hz, r, moves[0]), moves[1..]))
  }

  function MakeAll(hz: nat, r: Run, moves: seq<Move>): Run
    requires hz > 0
    decreases |moves|
  {
    if moves == [] then r else MakeAll(hz, Make(hz, r, moves[0]), moves[1..])
  }

  /**
   An enabled watchdog restarted `since` ticks ago, and a timer due in `ahead` ticks that has missed
   `misses` times.
   */
  function Start(interval: u32, resetTime: u32, restarted: nat, since: nat, ahead: nat, misses: nat): Run {
    Run(Wd(WDT_STATUS_EN, restarted % U64, interval), restarted, restarted + since, resetTime, true,
        restarted + since + ahead, misses, false)
  }

  /** A wdt_on that has just begun under such a timer; `interval` is left from before. */
  function Opening(interval: u32, resetTime: u32, begun: nat, ahead: nat, misses: nat): Run {
    Run(Wd(WDT_STATUS_DIS, begun % U64, interval), begun, begun, resetTime, true, begun + ahead, misses, true)
  }

  /** The longest the watchdog goes without a kick from a Start on: up to the first kick, or between later ones. */
  function Reach(hz: nat, resetTime: u32, bound: nat, since: nat, ahead: nat, misses: nat): nat
    requires misses <= bound
  {
    Max(Gap(hz, resetTime, bound), since + ahead + bound - misses)
  }

  /** wdt_on begins: the kicks stop, and the timer stands as it stood. */
  lemma EnableOpens(hz: nat, r: Run)
    requires hz > 0 && r.armed && r.now <= r.due
    ensures Make(hz, r, EnableBegins) == Opening(r.w.interval, r.resetTime, r.now, r.due - r.now, r.misses)
  {
  }

  /** wdt_on ends: the watchdog has been running since the beginning, and no kick came in between. */
  lemma EnableStarts(hz: nat, r: Run, timeout: u32)
    requires hz > 0 && r.opening && r.armed && r.restarted <= r.now <= r.due && r.w.onTime == r.restarted % U64
    ensures Make(hz, r, EnableEnds(timeout))
         == Start(IntervalOf(timeout), r.resetTime, r.restarted, r.now - r.restarted, r.due - r.now, r.misses)
  {
    hide IntervalOf;
  }

  /** The last tick on which the next free fire can come. */
  function Latest(k: Limits, r: Run): int {
    r.due + k.bound - r.misses
  }

  /** The longest stretch without a kick that the state or a later setting can bring. */
  function Stretch(k: Limits, r: Run): nat {
    Max(k.gap, if Latest(k, r) < r.restarted then 0 else Latest(k, r) - r.restarted)
  }

  /** An enabled watchdog counts from its last restart, and has time for the longest stretch. */
  ghost predicate InTime(hz: nat, k: Limits, r: Run)
    requires hz > 0
  {
    r.w.onTime == r.restarted % U64 && Msecs(hz, Stretch(k, r)) <= r.w.interval < 0x8000_0000
  }

  /** wdt_on has taken the time and not used up its own. */
  ghost predicate OnTheWay(k: Limits, r: Run) {
    && r.w.status == WDT_STATUS_DIS && r.w.onTime == r.restarted % U64
    && r.now <= r.restarted + k.span && Latest(k, r) <= r.restarted + k.span + k.gap
  }

  /** The timer is armed, keeps to the limits, and comes soon enough for a wdt_on that would begin now. */
  ghost predicate TimerFits(hz: nat, k: Limits, r: Run) {
    && r.armed && r.resetTime != 0 && r.misses <= k.bound && Gap(hz, r.resetTime, k.bound) <= k.gap
    && r.restarted <= r.now <= r.due && Latest(k, r) <= r.now + k.span + k.gap
  }

  ghost predicate Guarded(hz: nat, k: Limits, r: Run)
    requires hz > 0
  {
    && TimerFits(hz, k, r) && r.w.status != WDT_STATUS_EXP
    && (r.opening ==> OnTheWay(k, r))
    && (r.w.status == WDT_STATUS_EN ==> InTime(hz, k, r))
  }

  /** Every enabled state with the timer armed is guarded if its reach fits the interval. */
  lemma StartIsGuarded(hz: nat, interval: u32, resetTime: u32, bound: nat, span: nat, least: nat, restarted: nat,
                       since: nat, ahead: nat, misses: nat)
    requires hz > 0 && resetTime != 0 && misses <= bound
    requires Msecs(hz, Reach(hz, resetTime, bound, since, ahead, misses)) <= interval < 0x8000_0000
    ensures Guarded(hz, Limits(bound, span, Reach(hz, resetTime, bound, since, ahead, misses), least),
                    Start(interval, resetTime, restarted, since, ahead, misses))
  {
    hide Period, Msecs;
  }

  lemma OpeningIsGuarded(hz: nat, interval: u32, resetTime: u32, bound: nat, span: nat, least: nat, begun: nat,
                         ahead: nat, misses: nat)
    requires hz > 0 && resetTime != 0 && misses <= bound && ahead <= Period(hz, resetTime)
    ensures Guarded(hz, Limits(bound, span, Gap(hz, resetTime, bound), least),
                    Opening(interval, resetTime, begun, ahead, misses))
  {
    hide Period, Msecs;
  }

  lemma ModShift(a: int, p: nat)
    requires p < U64
    ensures (((a % U64) + p) % U64 - a) % U64 == p
  {
    var x := a % U64 + p;
    ModUnique(x % U64 - a, U64, -(a / U64) - x / U64, p);
  }

  lemma Rearmed(now: nat, p: nat)
    requires p < U64
    ensures TicksUntil(now, (now % U64 + p) % U64) == Max(1, p)
  {
    ModShift(now, p);
  }

  lemma ShownAfter(restarted: nat, now: nat)
    requires restarted <= now
    ensures now % U64 == ClockAfter(restarted % U64, now - restarted)
  {
    ModUnique(restarted % U64 + (now - restarted), U64, now / U64 - restarted / U64, now % U64);
  }

  /** Asked within the gap, the watchdog is found running. */
  lemma QueryWithinGap(hz: nat, interval: u32, onTime: u64, gap: nat, elapsed: nat)
    requires elapsed <= gap && 0 < hz < U32 && Msecs(hz, gap) <= interval < 0x8000_0000
    ensures TimeLeft(hz, Wd(WDT_STATUS_EN, onTime, interval), ClockAfter(onTime, elapsed)).1
         == Wd(WDT_STATUS_EN, onTime, interval)
  {
    var delta := DeltaTime(ClockAfter(onTime, elapsed), onTime);
    FitsShort(hz, gap);
    DeltaIsElapsed(onTime, elapsed);
    FitsBelow(hz, delta, gap);
    MsecsInRange(hz, delta);
    MsecsMonotone(hz, delta, gap);
    QueryExact(hz, Wd(WDT_STATUS_EN, onTime, interval), ClockAfter(onTime, elapsed));
  }

  /** A stretch that has not grown still fits. */
  lemma StillInTime(hz: nat, k: Limits, r: Run, r': Run)
    requires hz > 0 && InTime(hz, k, r) && r'.w.interval == r.w.interval && r'.w.onTime == r'.restarted % U64
    requires Stretch(k, r') <= Stretch(k, r)
    ensures InTime(hz, k, r')
  {
    MsecsMonotone(hz, Stretch(k, r'), Stretch(k, r));
    hide Msecs, Stretch;
  }

  /** What a run of the timer does in ticks. */
  lemma FireMoves(hz: nat, r: Run, busy: bool)
    requires hz > 0 && r.resetTime != 0
    ensures Make(hz, r, Fire(busy))
         == if busy then r.(due := r.now + 1, misses := r.misses + 1)
            else r.(w := Reloaded(r.w, r.now % U64, true),
                    restarted := if r.w.status == WDT_STATUS_EN then r.now else r.restarted,
                    armed := true, due := r.now + Period(hz, r.resetTime), misses := 0)
  {
    hide RearmTicks, TicksUntil, Reloaded;
    Rearmed(r.now, if busy then 1 else RearmTicks(hz, r.resetTime));
  }

  lemma FireKeepsGuard(hz: nat, k: Limits, r: Run, busy: bool)
    requires hz > 0 && Guarded(hz, k, r) && Enabled(r, k, Fire(busy))
    ensures Guarded(hz, k, Make(hz, r, Fire(busy)))
  {
    FireMoves(hz, r, busy);
    var r' := Make(hz, r, Fire(busy));
    assert r.w.status == WDT_STATUS_EN ==> r'.w.onTime == r'.restarted % U64;
    hide Make, Period, Msecs, InTime;
    if r.w.status == WDT_STATUS_EN {
      StillInTime(hz, k, r, r');
    }
  }

  lemma QueryKeepsGuard(hz: nat, k: Limits, r: Run)
    requires 0 < hz < U32 && Guarded(hz, k, r)
    ensures Make(hz, r, Query) == r
  {
    hide Msecs, TimeLeft, Period;
    if r.w.status == WDT_STATUS_EN {
      ShownAfter(r.restarted, r.now);
      QueryWithinGap(hz, r.w.interval, r.w.onTime, Stretch(k, r), r.now - r.restarted);
    } else {
      QuietLook(hz, r.w, r.now % U64);
    }
  }

  lemma QuietLook(hz: nat, w: Wd, now: u64)
    requires hz > 0 && w.status != WDT_STATUS_EN
    ensures TimeLeft(hz, w, now).1 == w
  {
  }

  /** What set_bypass_wd_auto does in ticks: a changed period makes the timer due with the next one. */
  lemma AutoSetMoves(hz: nat, r: Run, param: u32)
    requires hz > 0 && param != 0
    ensures Make(hz, r, SetAuto(param))
         == if param == r.resetTime then r else r.(resetTime := param, armed := true, due := r.now + 1)
  {
    Rearmed(r.now, 0);
    hide RearmTicks, TimerFire, Act, TicksUntil;
  }

  /** set_bypass_wd_auto on a watchdog that has been running: the timer is due with the next tick. */
  lemma AutoSetStarts(hz: nat, r: Run, param: u32)
    requires hz > 0 && param != 0 && param != r.resetTime && !r.opening
    requires r.w.status == WDT_STATUS_EN && r.restarted <= r.now && r.w.onTime == r.restarted % U64
    ensures Make(hz, r, SetAuto(param)) == Start(r.w.interval, param, r.restarted, r.now - r.restarted, 1, r.misses)
  {
    AutoSetMoves(hz, r, param);
    hide Make;
  }

  lemma AutoSetKeepsGuard(hz: nat, k: Limits, r: Run, param: u32)
    requires hz > 0 && Guarded(hz, k, r) && Enabled(r, k, SetAuto(param)) && Allowed(hz, k, SetAuto(param))
    ensures Guarded(hz, k, Make(hz, r, SetAuto(param)))
  {
    AutoSetMoves(hz, r, param);
    hide Make, Gap, Msecs;
    if r.w.status == WDT_STATUS_EN {
      StillInTime(hz, k, r, Make(hz, r, SetAuto(param)));
    }
  }

  lemma EndKeepsGuard(hz: nat, k: Limits, r: Run, timeout: u32)
    requires hz > 0 && Guarded(hz, k, r) && Enabled(r, k, EnableEnds(timeout)) && Allowed(hz, k, EnableEnds(timeout))
    requires Msecs(hz, k.span + k.gap) <= k.least
    ensures Guarded(hz, k, Make(hz, r, EnableEnds(timeout)))
  {
    EnableStarts(hz, r, timeout);
    IntervalFits(timeout);
    MsecsMonotone(hz, Stretch(k, r), k.span + k.gap);
    hide Make, Gap, Msecs, IntervalOf;
  }

  lemma IntervalFits(timeout: u32)
    ensures IntervalOf(timeout) < 0x8000_0000
  {
    RoundingCovers(timeout);
    hide StepOf;
  }

  lemma RestKeepsGuard(hz: nat, k: Limits, r: Run, m: Move)
    requires hz > 0 && Guarded(hz, k, r) && Enabled(r, k, m)
    requires m.Tick? || m.Kick? || m.EnableBegins? || m.Disable?
    ensures Guarded(hz, k, Make(hz, r, m))
  {
    hide IntervalOf, TimeLeft, Gap, TimerFire, Msecs;
    if r.w.status == WDT_STATUS_EN && (m.Tick? || m.Kick?) {
      StillInTime(hz, k, r, Make(hz, r, m));
    }
  }

  lemma MoveKeepsGuard(hz: nat, k: Limits, r: Run, m: Move)
    requires 0 < hz < U32 && Guarded(hz, k, r) && Enabled(r, k, m) && Allowed(hz, k, m)
    requires Msecs(hz, k.span + k.gap) <= k.least
    ensures Guarded(hz, k, Make(hz, r, m))
  {
    hide Guarded, Make, Msecs, Enabled, Allowed;
    match m
    case Fire(busy) => FireKeepsGuard(hz, k, r, busy);
    case Query => QueryKeepsGuard(hz, k, r);
    case SetAuto(param) => AutoSetKeepsGuard(hz, k, r, param);
    case EnableEnds(timeout) => EndKeepsGuard(hz, k, r, timeout);
    case _ => RestKeepsGuard(hz, k, r, m);
  }

  /**
   Safety of auto-reset, from any state: if the next stretch without a kick fits the interval, and
   any interval set on the way has room for a wdt_on and the longest gap, then in every run of ticks,
   timer fires, queries, kicks and settings that keeps to the limits, wdt_on begun and ended or left
   open, the watchdog never reads as expired.
   */
  lemma {:induction false} NeverExpires(hz: nat, k: Limits, r: Run, moves: seq<Move>)
    requires 0 < hz < U32 && Guarded(hz, k, r) && Legal(hz, k, r, moves)
    requires Msecs(hz, k.span + k.gap) <= k.least
    ensures MakeAll(hz, r, moves).w.status != WDT_STATUS_EXP
    decreases |moves|
  {
    hide Make, Msecs, TimerFits, InTime, OnTheWay, Enabled, Allowed;
    if moves != [] {
      MoveKeepsGuard(hz, k, r, moves[0]);
      NeverExpires(hz, k, Make(hz, r, moves[0]), moves[1..]);
    }
  }

  // ----- the bound is exact -----

  /** Of two runs, one is legal if the other is, and they end in the same state. */
  ghost predicate Same(hz: nat, k: Limits, r: Run, moves: seq<Move>, r': Run, moves': seq<Move>)
    requires hz > 0
  {
    Legal(hz, k, r, moves) == Legal(hz, k, r', moves') && MakeAll(hz, r, moves) == MakeAll(hz, r', moves')
  }

  lemma OneMove(hz: nat, k: Limits, r: Run, m: Move, moves: seq<Move>)
    requires hz > 0 && Enabled(r, k, m) && Allowed(hz, k, m)
    ensures Same(hz, k, r, [m] + moves, Make(hz, r, m), moves)
  {
    hide Make, Enabled, Allowed;
    assert ([m] + moves)[1..] == moves;
  }

  function Wait(n: nat, moves: seq<Move>): seq<Move> {
    if n == 0 then moves else [Tick] + Wait(n - 1, moves)
  }

  function Miss(n: nat, moves: seq<Move>): seq<Move> {
    if n == 0 then moves else [Fire(true)] + ([Tick] + Miss(n - 1, moves))
  }

  lemma OneTick(hz: nat, k: Limits, r: Run, moves: seq<Move>)
    requires hz > 0 && r.armed && r.now < r.due && (r.opening ==> r.now < r.restarted + k.span)
    ensures Same(hz, k, r, [Tick] + moves, r.(now := r.now + 1), moves)
  {
    OneMove(hz, k, r, Tick, moves);
    hide Same, Act;
  }

  lemma {:induction false} Waits(hz: nat, k: Limits, r: Run, n: nat, moves: seq<Move>)
    requires hz > 0 && r.armed && r.now + n <= r.due && (r.opening ==> r.now + n <= r.restarted + k.span)
    ensures Same(hz, k, r, Wait(n, moves), r.(now := r.now + n), moves)
    decreases n
  {
    hide Legal, MakeAll;
    if n > 0 {
      OneTick(hz, k, r, Wait(n - 1, moves));
      Waits(hz, k, r.(now := r.now + 1), n - 1, moves);
    }
  }

  lemma OneMiss(hz: nat, k: Limits, r: Run, moves: seq<Move>)
    requires hz > 0 && r.armed && r.resetTime != 0 && r.now == r.due && r.misses < k.bound && !r.opening
    ensures Same(hz, k, r, [Fire(true)] + ([Tick] + moves),
                 r.(now := r.now + 1, due := r.due + 1, misses := r.misses + 1), moves)
  {
    OneMove(hz, k, r, Fire(true), [Tick] + moves);
    FireMoves(hz, r, true);
    hide Make, Legal, MakeAll;
    OneTick(hz, k, r.(due := r.due + 1, misses := r.misses + 1), moves);
  }

  lemma {:induction false} Misses(hz: nat, k: Limits, r: Run, n: nat, moves: seq<Move>)
    requires hz > 0 && r.armed && r.resetTime != 0 && (n > 0 ==> r.now == r.due) && r.misses + n <= k.bound
    requires !r.opening
    ensures Same(hz, k, r, Miss(n, moves), r.(now := r.now + n, due := r.due + n, misses := r.misses + n), moves)
    decreases n
  {
    hide Legal, MakeAll;
    if n > 0 {
      OneMiss(hz, k, r, Miss(n - 1, moves));
      Misses(hz, k, r.(now := r.now + 1, due := r.due + 1, misses := r.misses + 1), n - 1, moves);
    }
  }

  lemma Cancel(k: nat, x: int, y: int)
    requires k > 0 && k * x < k * y
    ensures x < y
  {
  }

  /** A step of one tick moves the milliseconds by little. */
  lemma SmallStep(hz: nat, g: nat)
    requires hz > 0 && g > 0
    ensures Msecs(hz, g) <= Msecs(hz, g - 1) + 1002
  {
    MsecsNear(hz, g);
    MsecsNear(hz, g - 1);
    hide Msecs;
    NearSteps(hz, g, Msecs(hz, g), Msecs(hz, g - 1));
  }

  lemma NearSteps(hz: nat, g: nat, a: nat, b: nat)
    requires hz > 0 && g > 0
    requires hz * a < 1000 * g + hz && hz * b > 1000 * (g - 1) - hz
    ensures a <= b + 1002
  {
    Distribute(hz, a, b);
    Cancel(hz, a - b, 1002);
  }

  /** Somewhere in a gap that is too long there is a moment that reads as expired. */
  lemma {:induction false} ExpiryMoment(hz: nat, interval: u32, gap: nat) returns (g: nat)
    requires hz > 0 && Msecs(hz, gap) > interval
    ensures g <= gap && interval < Msecs(hz, g) <= interval + 1002
    decreases gap
  {
    if Msecs(hz, gap) <= interval + 1002 {
      return gap;
    }
    MsecsNear(hz, 0);
    assert gap > 0;
    SmallStep(hz, gap);
    g := ExpiryMoment(hz, interval, gap - 1);
  }

  lemma LateLook(hz: nat, w: Wd, g: nat)
    requires w.onTime == 0 && Running(w) && hz > 0 && Fits(hz, g)
    requires w.interval < Msecs(hz, g) <= w.interval + 0x8000_0000
    ensures g < U64 && TimeLeft(hz, w, g).1.status == WDT_STATUS_EXP
  {
    MsecsInRange(hz, g);
    QueryExact(hz, w, g);
    hide Msecs, JiffiesToMsecs, TimeLeft;
  }

  lemma AskedLate(hz: nat, k: Limits, s: Run, g: u64)
    requires hz > 0 && s.now % U64 == g && TimeLeft(hz, s.w, g).1.status == WDT_STATUS_EXP
    ensures Legal(hz, k, s, [Query]) && MakeAll(hz, s, [Query]).w.status == WDT_STATUS_EXP
  {
    hide TimeLeft;
    assert [Query][1..] == [];
  }

  /** A run of ticks and misses up to a tick that no free fire need precede. */
  function Until(k: Limits, r: Run, at: nat): Run
    requires r.now <= at <= Latest(k, r) && r.misses <= k.bound && r.now <= r.due
  {
    var late := if at <= r.due then 0 else at - r.due;
    r.(now := at, due := r.due + late, misses := r.misses + late)
  }

  lemma Passes(hz: nat, k: Limits, r: Run, at: nat, moves: seq<Move>) returns (run: seq<Move>)
    requires hz > 0 && r.armed && r.resetTime != 0 && r.now <= r.due && r.misses <= k.bound && !r.opening
    requires r.now <= at <= Latest(k, r)
    ensures Same(hz, k, r, run, Until(k, r, at), moves)
  {
    hide Legal, MakeAll;
    var early := if at <= r.due then at else r.due;
    run := Wait(early - r.now, Miss(at - early, moves));
    Waits(hz, k, r, early - r.now, Miss(at - early, moves));
    Misses(hz, k, r.(now := early), at - early, moves);
  }

  /** A run that waits for the moment `g` ticks after the restart, the timer missing if need be, and asks. */
  lemma AskAt(hz: nat, k: Limits, r: Run, g: nat) returns (moves: seq<Move>)
    requires 0 < hz < U32 && Running(r.w) && r.w.onTime == 0 && r.restarted % U64 == 0 && !r.opening
    requires r.armed && r.resetTime != 0 && r.restarted <= r.now <= r.due && r.misses <= k.bound
    requires r.now - r.restarted <= g <= Latest(k, r) - r.restarted
    requires r.w.interval < Msecs(hz, g) <= 0x8000_0000 + 2000 && Msecs(hz, g) <= r.w.interval + 0x8000_0000
    ensures Legal(hz, k, r, moves) && MakeAll(hz, r, moves).w.status == WDT_STATUS_EXP
  {
    FitsShort(hz, g);
    LateLook(hz, r.w, g);
    AddedMod(r.restarted, g);
    hide Legal, MakeAll, Msecs, Fits, TimeLeft, Running;
    AskedLate(hz, k, Until(k, r, r.restarted + g), g);
    moves := Passes(hz, k, r, r.restarted + g, [Query]);
  }

  lemma AddedMod(a: nat, g: nat)
    requires a % U64 == 0 && g < U64
    ensures (a + g) % U64 == g
  {
    ModUnique(a + g, U64, a / U64, g);
  }

  /** A free bus when the timer fires at a running watchdog: the kick starts a stretch of its own. */
  lemma KickStarts(hz: nat, k: Limits, r: Run, moves: seq<Move>)
    requires hz > 0 && r.w.status == WDT_STATUS_EN && r.armed && r.resetTime != 0 && r.now == r.due && !r.opening
    ensures Same(hz, k, r, [Fire(false)] + moves,
                 Start(r.w.interval, r.resetTime, r.now, 0, Period(hz, r.resetTime), 0), moves)
  {
    OneMove(hz, k, r, Fire(false), moves);
    FireMoves(hz, r, false);
    hide Make, Same, Period;
  }

  lemma FiresFirst(hz: nat, k: Limits, r: Run, moves: seq<Move>)
    requires hz > 0 && r.w.status == WDT_STATUS_EN && r.armed && r.resetTime != 0 && r.now <= r.due && !r.opening
    ensures Same(hz, k, r, Wait(r.due - r.now, [Fire(false)] + moves),
                 Start(r.w.interval, r.resetTime, r.due, 0, Period(hz, r.resetTime), 0), moves)
  {
    hide Legal, MakeAll, Start, Wait, Period;
    Waits(hz, k, r, r.due - r.now, [Fire(false)] + moves);
    KickStarts(hz, k, r.(now := r.due), moves);
  }

  /**
   If some stretch can be longer than the interval, some run reads as expired, for some value of the
   counter at the restart.
   */
  lemma TooLongExpires(hz: nat, k: Limits, interval: u32, resetTime: u32, since: nat, ahead: nat, misses: nat)
    returns (restarted: nat, moves: seq<Move>)
    requires 0 < hz < U32 && resetTime != 0 && interval < 0x8000_0000 && misses <= k.bound
    requires Msecs(hz, since) <= 0x8000_0000
    requires Msecs(hz, Reach(hz, resetTime, k.bound, since, ahead, misses)) > interval
    ensures var r := Start(interval, resetTime, restarted, since, ahead, misses);
            Legal(hz, k, r, moves) && MakeAll(hz, r, moves).w.status == WDT_STATUS_EXP
  {
    hide Legal, MakeAll, Msecs, Period, Wait;
    var lim := Reach(hz, resetTime, k.bound, since, ahead, misses);
    var first := since + ahead;
    if Msecs(hz, since) > interval {
      restarted := 0;
      moves := AskAt(hz, k, Start(interval, resetTime, 0, since, ahead, misses), since);
    } else {
      var g := ExpiryMoment(hz, interval, lim);
      LaterMoment(hz, since, g);
      if g <= first + k.bound - misses {
        restarted := 0;
        moves := AskAt(hz, k, Start(interval, resetTime, 0, since, ahead, misses), g);
      } else {
        restarted := first * (U64 - 1);
        var r := Start(interval, resetTime, restarted, since, ahead, misses);
        MultipleMod(first);
        var kicked := Start(interval, resetTime, r.due, 0, Period(hz, resetTime), 0);
        moves := AskAt(hz, k, kicked, g);
        FiresFirst(hz, k, r, moves);
        moves := Wait(r.due - r.now, [Fire(false)] + moves);
      }
    }
  }

  lemma MultipleMod(n: nat)
    ensures (n * (U64 - 1) + n) % U64 == 0
  {
    ModUnique(n * (U64 - 1) + n, U64, n, 0);
  }

  lemma LaterMoment(hz: nat, a: nat, b: nat)
    requires hz > 0 && Msecs(hz, a) < Msecs(hz, b)
    ensures a <= b
  {
    if b < a {
      MsecsMonotone(hz, b, a);
    }
  }

  /** No legal run from the state reads as expired. */
  ghost predicate Safe(hz: nat, k: Limits, r: Run)
    requires hz > 0
  {
    forall moves | Legal(hz, k, r, moves) :: MakeAll(hz, r, moves).w.status != WDT_STATUS_EXP
  }

  lemma GuardedIsSafe(hz: nat, k: Limits, r: Run)
    requires 0 < hz < U32 && Guarded(hz, k, r) && Msecs(hz, k.span + k.gap) <= k.least
    ensures Safe(hz, k, r)
  {
    hide Legal, MakeAll, Guarded, Msecs;
    forall moves | Legal(hz, k, r, moves) ensures MakeAll(hz, r, moves).w.status != WDT_STATUS_EXP {
      NeverExpires(hz, k, r, moves);
    }
  }

  /**
   Auto-reset keeps an enabled watchdog from ever reading as expired exactly when the longest
   stretch without a kick fits the interval: from any state of watchdog and timer in which the
   last restart is no more than 2^31 ms old, and for all settings made on the way that leave no longer
   stretch and, for a wdt_on of up to `span` ticks, set intervals with room for it as well.
   */
  lemma AutoResetExact(hz: nat, bound: nat, span: nat, least: nat, interval: u32, resetTime: u32, since: nat,
                       ahead: nat, misses: nat)
    requires 0 < hz < U32 && resetTime != 0 && interval < 0x8000_0000 && misses <= bound
    requires Msecs(hz, since) <= 0x8000_0000
    requires Msecs(hz, span + Reach(hz, resetTime, bound, since, ahead, misses)) <= least
    ensures var lim := Reach(hz, resetTime, bound, since, ahead, misses);
            Msecs(hz, lim) <= interval
            <==> forall restarted: nat :: Safe(hz, Limits(bound, span, lim, least),
                                               Start(interval, resetTime, restarted, since, ahead, misses))
  {
    hide Legal, MakeAll, Msecs, Guarded;
    var lim := Reach(hz, resetTime, bound, since, ahead, misses);
    var k := Limits(bound, span, lim, least);
    if Msecs(hz, lim) <= interval {
      forall restarted: nat ensures Safe(hz, k, Start(interval, resetTime, restarted, since, ahead, misses)) {
        StartIsGuarded(hz, interval, resetTime, bound, span, least, restarted, since, ahead, misses);
        GuardedIsSafe(hz, k, Start(interval, resetTime, restarted, since, ahead, misses));
      }
    } else {
      var restarted, moves := TooLongExpires(hz, k, interval, resetTime, since, ahead, misses);
      assert !Safe(hz, k, Start(interval, resetTime, restarted, since, ahead, misses));
    }
  }

  // ----- and so is the bound for a wdt_on -----

  /** A free bus when the timer fires inside a wdt_on: no kick, and yet a whole period. */
  lemma FiresInside(hz: nat, k: Limits, r: Run, moves: seq<Move>)
    requires hz > 0 && r.w.status == WDT_STATUS_DIS && r.armed && r.resetTime != 0 && r.now == r.due
    ensures Same(hz, k, r, [Fire(false)] + moves, r.(due := r.now + Period(hz, r.resetTime), misses := 0), moves)
  {
    OneMove(hz, k, r, Fire(false), moves);
    FireMoves(hz, r, false);
    hide Make, Same, Period;
  }

  /** Fires on a free bus, `p` ticks apart, `n` after the first. */
  function Rounds(n: nat, p: nat, moves: seq<Move>): seq<Move> {
    if n == 0 then [Fire(false)] + moves else [Fire(false)] + Wait(p, Rounds(n - 1, p, moves))
  }

  lemma OneRound(hz: nat, k: Limits, r: Run, moves: seq<Move>)
    requires hz > 0 && r.w.status == WDT_STATUS_DIS && r.armed && r.resetTime != 0 && r.now == r.due && r.misses == 0
    requires r.opening && r.now + Period(hz, r.resetTime) <= r.restarted + k.span
    ensures var p := Period(hz, r.resetTime);
            Same(hz, k, r, [Fire(false)] + Wait(p, moves), r.(now := r.now + p, due := r.now + p), moves)
  {
    hide Legal, MakeAll, Wait, Period;
    var p := Period(hz, r.resetTime);
    FiresInside(hz, k, r, Wait(p, moves));
    Waits(hz, k, r.(due := r.now + p), p, moves);
  }

  lemma {:induction false} RoundsLead(hz: nat, k: Limits, r: Run, n: nat, moves: seq<Move>)
    requires hz > 0 && r.w.status == WDT_STATUS_DIS && r.armed && r.resetTime != 0 && r.now == r.due && r.misses == 0
    requires r.opening && r.now + Times(n, Period(hz, r.resetTime)) <= r.restarted + k.span
    ensures var p := Period(hz, r.resetTime);
            Same(hz, k, r, Rounds(n, p, moves), r.(now := r.now + Times(n, p), due := r.now + Times(n, p) + p), moves)
    decreases n
  {
    var p := Period(hz, r.resetTime);
    hide Legal, MakeAll, Wait, Period, Times;
    if n == 0 {
      assert Times(0, p) == 0 by {
        NoTimes(p);
      }
      FiresInside(hz, k, r, moves);
    } else {
      OneMoreTime(n - 1, p);
      OneRound(hz, k, r, Rounds(n - 1, p, moves));
      RoundsLead(hz, k, r.(now := r.now + p, due := r.now + p), n - 1, moves);
    }
  }

  lemma NoTimes(p: nat)
    ensures Times(0, p) == 0
  {
  }

  lemma OneMoreTime(n: nat, p: nat)
    ensures Times(n + 1, p) == Times(n, p) + p
  {
  }

  lemma WholePeriods(s: nat, p: nat)
    requires p > 0
    ensures s == s % p + Times(s / p, p)
  {
  }

  lemma EndsAt(hz: nat, k: Limits, r: Run, timeout: u32, moves: seq<Move>)
    requires hz > 0 && r.opening && r.armed && r.restarted <= r.now <= r.due && r.w.onTime == r.restarted % U64
    requires k.least <= IntervalOf(timeout)
    ensures Same(hz, k, r, [EnableEnds(timeout)] + moves,
                 Start(IntervalOf(timeout), r.resetTime, r.restarted, r.now - r.restarted, r.due - r.now, r.misses),
                 moves)
  {
    OneMove(hz, k, r, EnableEnds(timeout), moves);
    EnableStarts(hz, r, timeout);
    hide Legal, MakeAll, Make, Start, IntervalOf;
  }

  /** The timer fires at tick `s` of a wdt_on, which ends at once; then it waits a period. */
  lemma FiresLast(hz: nat, k: Limits, interval: u32, resetTime: u32, s: nat, timeout: u32, moves: seq<Move>)
    returns (ahead: nat, run: seq<Move>)
    requires hz > 0 && resetTime != 0 && s <= k.span && k.least <= IntervalOf(timeout)
    ensures ahead <= Period(hz, resetTime)
    ensures Same(hz, k, Opening(interval, resetTime, 0, ahead, 0), run,
                 Start(IntervalOf(timeout), resetTime, 0, s, Period(hz, resetTime), 0), moves)
  {
    hide Legal, MakeAll, Wait, RearmTicks, Times, IntervalOf, Start;
    var p := Period(hz, resetTime);
    WholePeriods(s, p);
    var n: nat;
    ahead, n := s % p, s / p;
    FiresUpTo(hz, k, interval, resetTime, ahead, n, [EnableEnds(timeout)] + moves);
    EndsAt(hz, k, Opening(interval, resetTime, 0, ahead, 0).(now := s, due := s + p), timeout, moves);
    run := Wait(ahead, Rounds(n, p, [EnableEnds(timeout)] + moves));
  }

  lemma FiresUpTo(hz: nat, k: Limits, interval: u32, resetTime: u32, ahead: nat, n: nat, moves: seq<Move>)
    requires hz > 0 && resetTime != 0 && ahead + Times(n, Period(hz, resetTime)) <= k.span
    ensures var p := Period(hz, resetTime);
            var s := ahead + Times(n, p);
            Same(hz, k, Opening(interval, resetTime, 0, ahead, 0), Wait(ahead, Rounds(n, p, moves)),
                 Opening(interval, resetTime, 0, ahead, 0).(now := s, due := s + p), moves)
  {
    hide Legal, MakeAll, Wait, Rounds, Period, Times;
    var r := Opening(interval, resetTime, 0, ahead, 0);
    Waits(hz, k, r, ahead, Rounds(n, Period(hz, resetTime), moves));
    RoundsLead(hz, k, r.(now := ahead), n, moves);
  }

  /**
   After a wdt_on that takes up to `span` ticks under a timer of the given period, wherever that
   stands, and in all that follows with the same or longer intervals and the same or shorter gaps,
   the watchdog never reads as expired, exactly if its interval has room for the wdt_on and a gap.
   */
  lemma WdtOnExact(hz: nat, bound: nat, span: nat, resetTime: u32, timeout: u32)
    requires 0 < hz < U32 && resetTime != 0
    ensures var k := Limits(bound, span, Gap(hz, resetTime, bound), IntervalOf(timeout));
            Msecs(hz, span + Gap(hz, resetTime, bound)) <= IntervalOf(timeout)
            <==> forall interval: u32, begun: nat, ahead: nat, misses: nat
                   | ahead <= Period(hz, resetTime) && misses <= bound ::
                   Safe(hz, k, Opening(interval, resetTime, begun, ahead, misses))
  {
    hide Legal, MakeAll, Msecs, Guarded, IntervalOf, Period;
    var gap := Gap(hz, resetTime, bound);
    var k := Limits(bound, span, gap, IntervalOf(timeout));
    if Msecs(hz, span + gap) <= IntervalOf(timeout) {
      forall interval: u32, begun: nat, ahead: nat, misses: nat
        | ahead <= Period(hz, resetTime) && misses <= bound
        ensures Safe(hz, k, Opening(interval, resetTime, begun, ahead, misses))
      {
        OpeningIsGuarded(hz, interval, resetTime, bound, span, IntervalOf(timeout), begun, ahead, misses);
        GuardedIsSafe(hz, k, Opening(interval, resetTime, begun, ahead, misses));
      }
    } else {
      var ahead, moves := TooShortExpires(hz, k, resetTime, timeout);
      assert !Safe(hz, k, Opening(0, resetTime, 0, ahead, 0));
    }
  }

  /** A timer and a run that show it when there is no room. */
  lemma TooShortExpires(hz: nat, k: Limits, resetTime: u32, timeout: u32) returns (ahead: nat, moves: seq<Move>)
    requires 0 < hz < U32 && resetTime != 0 && k.least <= IntervalOf(timeout)
    requires Msecs(hz, k.span + Gap(hz, resetTime, k.bound)) > IntervalOf(timeout)
    ensures ahead <= Period(hz, resetTime)
    ensures var r := Opening(0, resetTime, 0, ahead, 0);
            Legal(hz, k, r, moves) && MakeAll(hz, r, moves).w.status == WDT_STATUS_EXP
  {
    IntervalFits(timeout);
    hide Legal, MakeAll, Msecs, Period, IntervalOf;
    var g := ExpiryMoment(hz, IntervalOf(timeout), k.span + Gap(hz, resetTime, k.bound));
    var s := if g < k.span then g else k.span;
    var after := AskAt(hz, k, Start(IntervalOf(timeout), resetTime, 0, s, Period(hz, resetTime), 0), g);
    ahead, moves := FiresLast(hz, k, 0, resetTime, s, timeout, after);
  }

  /** The rearm period is floor(HZ * reset_time / 1000) ticks exactly when the product fits 32 bits. */
  lemma RearmExact(hz: nat, resetTime: u32)
    ensures RearmTicks(hz, resetTime) == hz * resetTime / 1000 <==> hz * resetTime < U32
  {
    var x := hz * resetTime;
    assert x % U32 <= x - (if x >= U32 then U32 else 0);
  }

  /** The tick of the timer's next run, as it was set before or by its last run. */
  function NextRun(noted: Noted, t: Timing, expires: u64): nat {
    var last := if t.fires == noted.fires then noted.clock else t.lastFire;
    last + TicksUntil(last, expires)
  }

  lemma NextRunIsNear(hz: nat, resetTime: u32, noted: Noted, t: Timing, jiffies: u64, expires: u64)
    requires resetTime != 0 && TimerKept(hz, resetTime, noted, t, jiffies, expires) && t.fires != noted.fires
    ensures NextRun(noted, t, expires) == t.lastFire + if t.lastBusy then 1 else Period(hz, resetTime)
    ensures noted.clock <= t.lastFire <= t.clock
  {
    hide RearmTicks, TicksUntil;
    RearmedAt(t.lastFire, PutOff(hz, resetTime, t.lastBusy), expires);
  }

  lemma RearmedAt(at: nat, p: nat, expires: u64)
    requires p < U64 && expires == (at + p) % U64
    ensures TicksUntil(at, expires) == Max(1, p)
  {
    AddShown(at, p);
    Rearmed(at, p);
    hide TicksUntil;
  }

  /**
   From the driver's wdt_on to these runs: under a timer that is not overdue, whatever it did while
   the command went out, the state in which the call leaves the fields is guarded, if the interval has
   room for the ticks the call took and a gap.
   */
  lemma WdtOnIsGuarded(hz: nat, bound: nat, span: nat, least: nat, resetTime: u32, noted: Noted, t: Timing,
                       jiffies: u64, expires: u64, misses: nat, timeout: u32)
    requires hz > 0 && resetTime != 0 && misses <= bound
    requires TimerKept(hz, resetTime, noted, t, jiffies, expires) && t.clock <= noted.clock + span
    requires t.clock <= NextRun(noted, t, expires)
    requires if t.fires == noted.fires then NextRun(noted, t, expires) <= noted.clock + Period(hz, resetTime)
             else t.lastBusy ==> misses > 0
    requires Msecs(hz, span + Gap(hz, resetTime, bound)) <= IntervalOf(timeout)
    ensures Guarded(hz, Limits(bound, span, Gap(hz, resetTime, bound), least),
                    Run(Wd(WDT_STATUS_EN, noted.clock % U64, IntervalOf(timeout)), noted.clock, t.clock, resetTime,
                        true, NextRun(noted, t, expires), misses, false))
  {
    assert noted.clock <= t.clock;
    if t.fires != noted.fires {
      NextRunIsNear(hz, resetTime, noted, t, jiffies, expires);
    }
    hide Msecs, TimerKept, NextRun, IntervalOf, Period;
    RecentIsGuarded(hz, bound, span, least, resetTime, noted.clock, t.clock, NextRun(noted, t, expires), misses,
                    timeout);
  }

  lemma RecentIsGuarded(hz: nat, bound: nat, span: nat, least: nat, resetTime: u32, restarted: nat, now: nat,
                        due: nat, misses: nat, timeout: u32)
    requires hz > 0 && resetTime != 0 && misses <= bound && restarted <= now <= due
    requires due + bound - misses <= restarted + span + Gap(hz, resetTime, bound)
    requires Msecs(hz, span + Gap(hz, resetTime, bound)) <= IntervalOf(timeout)
    ensures Guarded(hz, Limits(bound, span, Gap(hz, resetTime, bound), least),
                    Run(Wd(WDT_STATUS_EN, restarted % U64, IntervalOf(timeout)), restarted, now, resetTime, true, due,
                        misses, false))
  {
    IntervalFits(timeout);
    hide Msecs, Period, IntervalOf;
    MsecsMonotone(hz, Max(Gap(hz, resetTime, bound), due + bound - misses - restarted),
                  span + Gap(hz, resetTime, bound));
  }

  // ----- switching auto-reset off -----

  /** Every move of the run can be made when its turn comes, whatever is set on the way. */
  ghost predicate Possible(hz: nat, k: Limits, r: Run, moves: seq<Move>)
    requires hz > 0
    decreases |moves|
  {
    moves == [] || (Enabled(r, k, moves[0]) && Possible(hz, k, Make(hz, r, moves[0]), moves[1..]))
  }

  /** Nobody switches auto-reset on again. */
  ghost predicate LeftOff(moves: seq<Move>) {
    forall i | 0 <= i < |moves| && moves[i].SetAuto? :: moves[i].param == 0
  }

  /** Neither a kick from elsewhere nor a wdt_on. */
  ghost predicate LeftAlone(moves: seq<Move>) {
    forall i | 0 <= i < |moves| :: !moves[i].Kick? && !moves[i].EnableBegins?
  }

  function FreeFires(moves: seq<Move>): nat {
    if moves == [] then 0 else (if moves[0] == Fire(false) then 1 else 0) + FreeFires(moves[1..])
  }

  lemma OffMove(hz: nat, k: Limits, r: Run, m: Move)
    requires hz > 0 && r.resetTime == 0 && Enabled(r, k, m) && (m.SetAuto? ==> m.param == 0)
    ensures var r' := Make(hz, r, m);
            && r'.resetTime == 0
            && r'.armed == (r.armed && m != Fire(false)) && (m.Fire? ==> r.armed)
            && (!m.Fire? && !m.Kick? && !m.EnableBegins? ==> r'.restarted == r.restarted)
  {
    hide TimerFire, Act, TicksUntil, RearmTicks;
  }

  /** Once the timer sleeps for good, it is not seen again, and restarts come from elsewhere only. */
  lemma {:induction false} TimerGone(hz: nat, k: Limits, r: Run, moves: seq<Move>)
    requires hz > 0 && r.resetTime == 0 && !r.armed && Possible(hz, k, r, moves) && LeftOff(moves)
    ensures FreeFires(moves) == 0 && (forall i | 0 <= i < |moves| :: !moves[i].Fire?)
    ensures !MakeAll(hz, r, moves).armed && MakeAll(hz, r, moves).resetTime == 0
    ensures LeftAlone(moves) ==> MakeAll(hz, r, moves).restarted == r.restarted
    decreases |moves|
  {
    hide Make, Enabled;
    if moves != [] {
      OffMove(hz, k, r, moves[0]);
      assert forall i | 0 <= i < |moves[1..]| :: moves[1..][i] == moves[i + 1];
      TimerGone(hz, k, Make(hz, r, moves[0]), moves[1..]);
    }
  }

  lemma {:induction false} OneFireAtMost(hz: nat, k: Limits, r: Run, moves: seq<Move>)
    requires hz > 0 && r.resetTime == 0 && Possible(hz, k, r, moves) && LeftOff(moves)
    ensures FreeFires(moves) <= 1 && MakeAll(hz, r, moves).resetTime == 0
    ensures MakeAll(hz, r, moves).armed <==> r.armed && FreeFires(moves) == 0
    decreases |moves|
  {
    hide Make, Enabled;
    if moves != [] {
      OffMove(hz, k, r, moves[0]);
      assert forall i | 0 <= i < |moves[1..]| :: moves[1..][i] == moves[i + 1];
      if moves[0] == Fire(false) {
        TimerGone(hz, k, Make(hz, r, moves[0]), moves[1..]);
      } else {
        OneFireAtMost(hz, k, Make(hz, r, moves[0]), moves[1..]);
      }
    }
  }

  /**
   set_bypass_wd_auto(0), in any state of watchdog and timer: in every run that follows, until
   somebody switches auto-reset on again, the timer finds the bus free once at most, and only if it
   was armed; then it is gone.
   */
  lemma SwitchedOffAuto(hz: nat, k: Limits, r: Run, moves: seq<Move>)
    requires hz > 0 && Possible(hz, k, r, [SetAuto(0)] + moves) && LeftOff(moves)
    ensures var end := MakeAll(hz, r, [SetAuto(0)] + moves);
            && FreeFires(moves) <= (if r.armed then 1 else 0) && end.resetTime == 0
            && (end.armed <==> r.armed && FreeFires(moves) == 0)
  {
    assert ([SetAuto(0)] + moves)[1..] == moves;
    var off := Make(hz, r, SetAuto(0));
    hide Make, Enabled;
    OneFireAtMost(hz, k, off, moves);
    if !r.armed {
      TimerGone(hz, k, off, moves);
    }
  }

  // ----- the call itself -----

  /**
   set_bypass_wd_auto: a period of 0 switches auto-reset off, except on an Intel part, which takes it
   for the shortest period and goes on.
   */
  method SetBypassWdAuto(d: Device, intel: bool, param: u32) returns (ret: int)
    requires d.Ok()
    modifies d`resetTime, d`timerExpires, d`noted
    ensures d.Ok()
    ensures ret == if Cap(d.caps, WD_CTL_CAP) then BP_OK else BP_NOT_CAP
    ensures (d.resetTime, d.timerExpires)
         == if ret == BP_OK then AutoSet(old(d.resetTime), old(d.timerExpires), d.jiffies, intel, param)
            else (old(d.resetTime), old(d.timerExpires))
    ensures ret == BP_OK && !intel ==> d.resetTime == param
    ensures ret == BP_OK && intel && old(d.resetTime) != param ==>
              d.resetTime >= 500 && d.resetTime >= param && (param >= 500 ==> d.resetTime == param)
              && (param < 500 ==> d.resetTime == 500)
    ensures ret == BP_OK && old(d.resetTime) == param ==> d.resetTime == param
    ensures ret == BP_OK && param == 0 ==> (d.resetTime == 0 <==> !intel || old(d.resetTime) == 0)
    ensures d.timerExpires == if ret == BP_OK && param != 0 && param != old(d.resetTime) then d.jiffies
                              else old(d.timerExpires)
  {
    hide Traced, Mclk;
    if Cap(d.caps, WD_CTL_CAP) {
      if d.resetTime != param {
        TimerNoted(d.hz, d.resetTime, d.noted, d.timing, d.jiffies, d.timerExpires);
        if intel {
          d.resetTime := if param < WDT_AUTO_MIN_INT then WDT_AUTO_MIN_INT else param;
        } else {
          d.resetTime := param;
        }
        if param != 0 {
          d.timerExpires := d.jiffies;
        }
        d.noted := d.TimerNow();
      }
      return BP_OK;
    }
    return BP_NOT_CAP;
  }
}
