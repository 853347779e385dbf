/** One bypass device as the driver keeps it: the fields of bpctl_dev_t that the bus and the watchdog use. */
module Device {
  import opened Bits
  import opened Pic
  import opened Pins
  import opened Watchdog
  import Timeout
  import WdHistory

  /** `w` is what the recorded steps make of the watchdog the driver started with. */
  ghost predicate Traced(hz: nat, ext: nat, origin: Wd, w: Wd, history: seq<WdHistory.Timed>)
    requires hz > 0
  {
    w == WdHistory.Play(hz, ext, origin, history)
  }

  lemma TraceStep(hz: nat, ext: nat, origin: Wd, w: Wd, history: seq<WdHistory.Timed>, t: WdHistory.Timed)
    requires hz > 0 && Traced(hz, ext, origin, w, history)
    ensures Traced(hz, ext, origin, WdHistory.Step(hz, ext, w, t), history + [t])
  {
    assert (history + [t])[..|history|] == history;
  }

  /** Between two states of one trace, the change of the fields is the play of the steps between them. */
  lemma ChangeIsPlay(hz: nat, ext: nat, origin: Wd, w: Wd, h: seq<WdHistory.Timed>, w': Wd, h': seq<WdHistory.Timed>)
    requires hz > 0 && Traced(hz, ext, origin, w, h) && Traced(hz, ext, origin, w', h') && h <= h'
    ensures w' == WdHistory.Play(hz, ext, w, h'[|h|..])
  {
    WdHistory.PlayAppend(hz, ext, origin, h, h'[|h|..]);
    assert h' == h + h'[|h|..];
  }

  class Device {
    const variant: Variant
    const hasPeer: bool      // get_status_port_fn finds the partner port
    const extVer: nat        // bp_ext_ver of a part with the serial interface
    const caps: bv32
    const capsEx: bv32
    const hz: nat            // the kernel tick rate
    var board: Board         // controller registers and the PIC behind the pins
    var jiffies: u64
    var wdtBusy: bool
    var wdtStatus: int
    var onTime: u64          // bypass_wdt_on_time
    var interval: u32        // bypass_timer_interval
    var resetTime: u32
    var timerExpires: u64    // bp_timer
    ghost const origin: Wd   // the watchdog's fields at the start,
    ghost var history: seq<WdHistory.Timed>  // the steps taken on them since,
    ghost var timing: Timing // what the clock and the timer have done,
    ghost var noted: Noted   // and where the timer stood when it was last set or wdt_on last began

    ghost predicate Ok()
      reads this
    {
      && hz > 0
      && Settled(variant, board)
      && (!wdtBusy ==> board.pic.phase.Idle?)
      && Traced(hz, extVer, origin, Wd(), history)
      && TimerKept(hz, resetTime, noted, timing, jiffies, timerExpires)
    }

    /** The timer as it stands. */
    ghost function TimerNow(): Noted
      reads this
    {
      Noted(timing.clock, timing.fires, timerExpires)
    }

    /** What the driver records about the watchdog, and how it came about. */
    ghost function Record(): (Wd, seq<WdHistory.Timed>)
      reads this
    {
      (Wd(), history)
    }

    function Wd(): Watchdog.Wd
      reads this
    {
      Watchdog.Wd(wdtStatus, onTime, interval)
    }

    /** Only the 10G9 needs its partner port to reach the PIC. */
    predicate Reachable() {
      variant.TenGig9? ==> hasPeer
    }

    constructor (variant: Variant, hasPeer: bool, extVer: nat, caps: bv32, capsEx: bv32, hz: nat,
                 regs: Regs, picRegs: seq<byte>, jiffies: u64, w: Wd)
      requires hz > 0 && |picRegs| == 16
      ensures Ok() && !wdtBusy && Wd() == w && history == [] && timing.fires == 0
      ensures this.variant == variant && this.hasPeer == hasPeer && this.extVer == extVer
      ensures this.caps == caps && this.capsEx == capsEx && this.hz == hz
      ensures board == Board(regs, Pic(Idle, true, picRegs, []))
    {
      this.variant, this.hasPeer, this.extVer := variant, hasPeer, extVer;
      this.caps, this.capsEx, this.hz := caps, capsEx, hz;
      this.board := Board(regs, Pic(Idle, true, picRegs, []));
      this.jiffies, this.wdtBusy, this.resetTime, this.timerExpires := jiffies, false, 0, 0;
      this.wdtStatus, this.onTime, this.interval := w.status, w.onTime, w.interval;
      this.origin, this.history := w, [];
      this.timing, this.noted := Timing(jiffies, 0, 0, false), Noted(jiffies, 0, 0);
    }
  }

  /**
   The status of a device, told from what its calls have done: since its last wdt_on it reads as
   expired exactly if some call found the last refresh before it overdue.
   */
  lemma StatusTellsHistory(d: Device, before: seq<WdHistory.Timed>, at: u64, during: seq<WdHistory.Timed>, done: u64,
                           timeout: u32, after: seq<WdHistory.Timed>)
    requires d.Ok() && WdHistory.NoSwitch(during) && WdHistory.NoSwitch(after)
    requires d.history == before + WdHistory.SwitchingOn(at, during, done, timeout) + after
    ensures var late := WdHistory.CaughtLate(d.hz, d.extVer, d.interval, at, after);
            && d.interval == Timeout.IntervalOf(timeout)
            && d.wdtStatus == (if late then WDT_STATUS_EXP else WDT_STATUS_EN)
            && (!late ==> d.onTime == WdHistory.Shown(WdHistory.LastRefresh(d.extVer, at, after)))
  {
    hide Mclk, TimerKept, WdHistory.CaughtLate, WdHistory.SwitchingOn, WdHistory.Play, WdHistory.Shown,
         Timeout.IntervalOf;
    WdHistory.SwitchedOn(d.hz, d.extVer, d.origin, before, at, during, done, timeout, after);
  }
}
