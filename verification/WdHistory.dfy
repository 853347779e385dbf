/** Whole runs of the watchdog's status machine: what the status says about the calls made so far. */
module WdHistory {
  import opened Codes
  import opened Watchdog
  import opened Clock
  import opened Timeout

  /**
   The points at which a call acts on the watchdog's fields. wdt_on and write_reg act twice, at
   their beginning and at their end, and the timer may come between.
   */
  datatype Call =
    | OnBegins                 // wdt_on: off for now, and the time is taken
    | OnEnds(timeout: u32)     // wdt_on: the command is out, the interval counts
    | TurnOff                  // wdt_off, after its command
    | Kick(sent: bool)         // a kick; `sent` says that it reached the PIC
    | WriteBegins              // write_reg, before the frame
    | WriteEnds(addr: nat)     // write_reg, after it
    | Query                    // wdt_time_left

  /** `at` counts ticks without wrap; the driver's counter shows it modulo 2^64. */
  datatype Timed = Timed(at: nat, call: Call)

  function Shown(at: nat): u64 {
    at % U64
  }

  /** One call on the driver's watchdog fields, for a part of external version `ext`. */
  function Step(hz: nat, ext: nat, w: Wd, t: Timed): Wd
    requires hz > 0
  {
    var now := Shown(t.at);
    match t.call
    case OnBegins => w.(status := WDT_STATUS_DIS, onTime := now)
    case OnEnds(timeout) => w.(status := WDT_STATUS_EN, interval := IntervalOf(timeout))
    case TurnOff => w.(status := WDT_STATUS_DIS)
    case Kick(sent) => Reloaded(w, now, sent)
    case WriteBegins => if ext < PXG4BPFI_VER then TimeLeft(hz, w, now).1 else w
    case WriteEnds(addr) => Reloaded(w, now, ext < PXG4BPFI_VER && addr == CMND_REG_ADDR)
    case Query => TimeLeft(hz, w, now).1
  }

  lemma ShownNow(now: u64)
    ensures Shown(now) == now
  {
  }

  /** A look at the clock, as a call of its own or before a write. */
  lemma StepLooks(hz: nat, ext: nat, w: Wd, now: u64, call: Call)
    requires hz > 0 && (call.Query? || (call.WriteBegins? && ext < PXG4BPFI_VER))
    ensures Step(hz, ext, w, Timed(now, call)) == TimeLeft(hz, w, now).1
  {
    ShownNow(now);
    hide Shown, TimeLeft, IntervalOf;
  }

  lemma StepKicks(hz: nat, ext: nat, w: Wd, now: u64)
    requires hz > 0
    ensures Step(hz, ext, w, Timed(now, Kick(true))) == Reloaded(w, now, true)
  {
    ShownNow(now);
    hide Shown, TimeLeft, IntervalOf;
  }

  function Play(hz: nat, ext: nat, w: Wd, run: seq<Timed>): Wd
    requires hz > 0
    decreases |run|
  {
    if run == [] then w else Step(hz, ext, Play(hz, ext, w, run[..|run| - 1]), run[|run| - 1])
  }

  // ----- the history, described without the status -----

  predicate Switches(c: Call) {
    c.OnBegins? || c.OnEnds? || c.TurnOff?
  }

  predicate Looks(ext: nat, c: Call) {
    c.Query? || (c.WriteBegins? && ext < PXG4BPFI_VER)
  }

  predicate Refreshes(ext: nat, c: Call) {
    (c.Kick? && c.sent) || (c.WriteEnds? && c.addr == CMND_REG_ADDR && ext < PXG4BPFI_VER)
  }

  /** The tick of the last refresh in the run, or `start`. */
  function LastRefresh(ext: nat, start: nat, run: seq<Timed>): nat
    decreases |run|
  {
    if run == [] then start
    else
      var n := |run| - 1;
      if Refreshes(ext, run[n].call) then run[n].at else LastRefresh(ext, start, run[..n])
  }

  /** More than the interval has passed since `since`, by no more than 2^31 ms as the driver measures it. */
  predicate Overdue(hz: nat, interval: u32, since: nat, at: nat)
    requires hz > 0
  {
    interval < JiffiesToMsecs(hz, DeltaTime(Shown(at), Shown(since))) <= interval + 0x8000_0000
  }

  /** Some call looked at the clock when the last refresh before it was overdue. */
  ghost predicate CaughtLate(hz: nat, ext: nat, interval: u32, start: nat, run: seq<Timed>)
    requires hz > 0
  {
    exists i | 0 <= i < |run| ::
      Looks(ext, run[i].call) && Overdue(hz, interval, LastRefresh(ext, start, run[..i]), run[i].at)
  }

  ghost predicate NoSwitch(run: seq<Timed>) {
    forall i | 0 <= i < |run| :: !Switches(run[i].call)
  }

  lemma CaughtLateStep(hz: nat, ext: nat, interval: u32, start: nat, run: seq<Timed>)
    requires hz > 0 && run != []
    ensures var n := |run| - 1;
            CaughtLate(hz, ext, interval, start, run)
            <==> CaughtLate(hz, ext, interval, start, run[..n])
                 || (Looks(ext, run[n].call) && Overdue(hz, interval, LastRefresh(ext, start, run[..n]), run[n].at))
  {
    hide Overdue, LastRefresh, Looks;
    var n := |run| - 1;
    assert forall i | 0 <= i < n :: run[..n][..i] == run[..i] && run[..n][i] == run[i];
    if CaughtLate(hz, ext, interval, start, run) {
      var i :| 0 <= i < |run| && Looks(ext, run[i].call)
               && Overdue(hz, interval, LastRefresh(ext, start, run[..i]), run[i].at);
      if i < n {
        assert Looks(ext, run[..n][i].call)
            && Overdue(hz, interval, LastRefresh(ext, start, run[..n][..i]), run[..n][i].at);
      }
    }
    if CaughtLate(hz, ext, interval, start, run[..n]) {
      var i :| 0 <= i < n && Looks(ext, run[..n][i].call)
               && Overdue(hz, interval, LastRefresh(ext, start, run[..n][..i]), run[..n][i].at);
      assert Looks(ext, run[i].call) && Overdue(hz, interval, LastRefresh(ext, start, run[..i]), run[i].at);
    }
  }

  /**
   The status is exactly the history: after wdt_on, and until the next wdt_on or wdt_off, the
   watchdog reads as expired if and only if some call caught it late; otherwise it is enabled
   and counts from the last refresh.
   */
  lemma {:induction false} StatusIsHistory(hz: nat, ext: nat, interval: u32, start: nat, run: seq<Timed>)
    requires hz > 0 && interval < 0x8000_0000 && NoSwitch(run)
    ensures var w := Play(hz, ext, Wd(WDT_STATUS_EN, Shown(start), interval), run);
            && w.interval == interval
            && w.status == (if CaughtLate(hz, ext, interval, start, run) then WDT_STATUS_EXP else WDT_STATUS_EN)
            && (w.status == WDT_STATUS_EN ==> w.onTime == Shown(LastRefresh(ext, start, run)))
    decreases |run|
  {
    if run != [] {
      var n := |run| - 1;
      StatusIsHistory(hz, ext, interval, start, run[..n]);
      CaughtLateStep(hz, ext, interval, start, run);
      var w := Play(hz, ext, Wd(WDT_STATUS_EN, Shown(start), interval), run[..n]);
      hide CaughtLate, JiffiesToMsecs, DeltaTime;
      StepCatches(hz, ext, interval, LastRefresh(ext, start, run[..n]), w, run[n]);
    }
  }

  /** What one call does to an enabled or expired watchdog. */
  lemma StepCatches(hz: nat, ext: nat, interval: u32, since: nat, w: Wd, t: Timed)
    requires hz > 0 && interval < 0x8000_0000 && !Switches(t.call)
    requires w.status == WDT_STATUS_EXP || w == Wd(WDT_STATUS_EN, Shown(since), interval)
    ensures w.status == WDT_STATUS_EXP ==> Step(hz, ext, w, t) == w
    ensures w.status == WDT_STATUS_EN && Looks(ext, t.call) && Overdue(hz, interval, since, t.at)
            ==> Step(hz, ext, w, t) == w.(status := WDT_STATUS_EXP)
    ensures w.status == WDT_STATUS_EN && !(Looks(ext, t.call) && Overdue(hz, interval, since, t.at))
            ==> Step(hz, ext, w, t) == w.(onTime := Shown(if Refreshes(ext, t.call) then t.at else since))
  {
    if w.status == WDT_STATUS_EN {
      QueryExact(hz, w, Shown(t.at));
    }
    hide JiffiesToMsecs, DeltaTime;
  }

  /** The run of a wdt_on called at tick `at`, with what happens while its command is sent. */
  function SwitchingOn(at: nat, during: seq<Timed>, done: nat, timeout: u32): seq<Timed> {
    [Timed(at, OnBegins)] + during + [Timed(done, OnEnds(timeout))]
  }

  lemma PlayOne(hz: nat, ext: nat, w: Wd, t: Timed)
    requires hz > 0
    ensures Play(hz, ext, w, [t]) == Step(hz, ext, w, t)
  {
    hide Step;
    assert [t][..0] == [];
  }

  /** wdt_on: whatever falls between its beginning and its end, the interval counts from the beginning. */
  lemma OnSwitches(hz: nat, ext: nat, w: Wd, at: nat, during: seq<Timed>, done: nat, timeout: u32)
    requires hz > 0 && NoSwitch(during)
    ensures Play(hz, ext, w, SwitchingOn(at, during, done, timeout))
         == Wd(WDT_STATUS_EN, Shown(at), IntervalOf(timeout))
  {
    hide IntervalOf;
    PlayOne(hz, ext, w, Timed(at, OnBegins));
    var w1 := w.(status := WDT_STATUS_DIS, onTime := Shown(at));
    PlayAppend(hz, ext, w, [Timed(at, OnBegins)], during);
    KeptOtherwise(hz, ext, w1, during);
    PlayAppend(hz, ext, w, [Timed(at, OnBegins)] + during, [Timed(done, OnEnds(timeout))]);
    PlayOne(hz, ext, w1, Timed(done, OnEnds(timeout)));
  }

  /** Whatever went before, wdt_on starts a fresh history with the rounded interval, counted from its beginning. */
  lemma SwitchedOn(hz: nat, ext: nat, w: Wd, before: seq<Timed>, at: nat, during: seq<Timed>, done: nat, timeout: u32,
                   after: seq<Timed>)
    requires hz > 0 && NoSwitch(during) && NoSwitch(after)
    ensures var w' := Play(hz, ext, w, before + SwitchingOn(at, during, done, timeout) + after);
            var late := CaughtLate(hz, ext, IntervalOf(timeout), at, after);
            && w'.interval == IntervalOf(timeout)
            && w'.status == (if late then WDT_STATUS_EXP else WDT_STATUS_EN)
            && (!late ==> w'.onTime == Shown(LastRefresh(ext, at, after)))
  {
    hide CaughtLate, IntervalOf, SwitchingOn, Play;
    var on := SwitchingOn(at, during, done, timeout);
    PlayAppend(hz, ext, w, before + on, after);
    PlayAppend(hz, ext, w, before, on);
    OnSwitches(hz, ext, Play(hz, ext, w, before), at, during, done, timeout);
    StatusIsHistory(hz, ext, IntervalOf(timeout), at, after);
  }

  /** After wdt_off nothing but wdt_on makes the watchdog anything but off. */
  lemma SwitchedOff(hz: nat, ext: nat, w: Wd, before: seq<Timed>, at: nat, after: seq<Timed>)
    requires hz > 0 && NoSwitch(after)
    ensures Play(hz, ext, w, before + [Timed(at, TurnOff)] + after).status == WDT_STATUS_DIS
  {
    var off := [Timed(at, TurnOff)];
    PlayAppend(hz, ext, w, before + off, after);
    PlayAppend(hz, ext, w, before, off);
    KeptOtherwise(hz, ext, Play(hz, ext, w, before + off), after);
  }

  /** Only wdt_on and wdt_off leave a status other than enabled, expiry included. */
  lemma {:induction false} KeptOtherwise(hz: nat, ext: nat, w: Wd, run: seq<Timed>)
    requires hz > 0 && w.status != WDT_STATUS_EN && NoSwitch(run)
    ensures Play(hz, ext, w, run) == w
    decreases |run|
  {
    if run != [] {
      KeptOtherwise(hz, ext, w, run[..|run| - 1]);
    }
  }

  lemma {:induction false} PlayAppend(hz: nat, ext: nat, w: Wd, a: seq<Timed>, b: seq<Timed>)
    requires hz > 0
    ensures Play(hz, ext, w, a + b) == Play(hz, ext, Play(hz, ext, w, a), b)
    decreases |b|
  {
    hide Step;
    if b == [] {
      assert a + b == a;
    } else {
      assert (a + b)[..|a + b| - 1] == a + b[..|b| - 1];
      PlayAppend(hz, ext, w, a, b[..|b| - 1]);
    }
  }

  // ----- what queries return -----

  /** What wdt_time_left returns at a tick. */
  function Asked(hz: nat, w: Wd, at: nat): int
    requires hz > 0
  {
    TimeLeft(hz, w, Shown(at)).0
  }

  lemma PlayNext(hz: nat, ext: nat, w: Wd, run: seq<Timed>, t: Timed)
    requires hz > 0
    ensures Play(hz, ext, w, run + [t]) == Step(hz, ext, Play(hz, ext, w, run), t)
  {
    hide Step;
    assert (run + [t])[..|run|] == run;
  }

  /**
   After wdt_on, and until the next wdt_on or wdt_off, a query returns -1 if and only if some call,
   the query included, caught the watchdog late; so once one has, every later query does.
   */
  lemma QueriesTellHistory(hz: nat, ext: nat, interval: u32, start: nat, run: seq<Timed>, at: nat)
    requires hz > 0 && interval < 0x8000_0000 && NoSwitch(run)
    ensures var w := Play(hz, ext, Wd(WDT_STATUS_EN, Shown(start), interval), run);
            && (Asked(hz, w, at) == -1 <==> CaughtLate(hz, ext, interval, start, run + [Timed(at, Query)]))
            && (CaughtLate(hz, ext, interval, start, run) ==> Asked(hz, w, at) == -1)
  {
    var w0 := Wd(WDT_STATUS_EN, Shown(start), interval);
    var more := run + [Timed(at, Query)];
    PlayNext(hz, ext, w0, run, Timed(at, Query));
    QueryValue(hz, Play(hz, ext, w0, run), Shown(at));
    hide CaughtLate, TimeLeft, Play;
    assert more[..|run|] == run;
    CaughtLateStep(hz, ext, interval, start, more);
    StatusIsHistory(hz, ext, interval, start, more);
  }

  /** After wdt_off every query until wdt_on returns 0. */
  lemma QueriesAfterOff(hz: nat, ext: nat, w: Wd, before: seq<Timed>, off: nat, after: seq<Timed>, at: nat)
    requires hz > 0 && NoSwitch(after)
    ensures Asked(hz, Play(hz, ext, w, before + [Timed(off, TurnOff)] + after), at) == 0
  {
    SwitchedOff(hz, ext, w, before, off, after);
    QueryValue(hz, Play(hz, ext, w, before + [Timed(off, TurnOff)] + after), Shown(at));
    hide TimeLeft, Play;
  }
}
