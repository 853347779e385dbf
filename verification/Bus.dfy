/**
 The functions of the management bus and of the watchdog timer behind it. Every register
 access of a process-context call is preceded by Preempt, where time passes and the
 auto-reset timer may run to completion any number of times: the contracts hold for every
 such interleaving on one CPU.
 */
module Bus {
  import opened Bits
  import opened Codes
  import opened Pic
  import opened Pins
  import opened Wires
  import opened Watchdog
  import opened Device
  import Clock

  /** Fields only wdt_on, wdt_off and the API setters change; a query may find the watchdog expired. */
  ghost predicate WdKept(w: Wd, w': Wd) {
    && w'.interval == w.interval
    && (w'.status == w.status || (w.status == WDT_STATUS_EN && w'.status == WDT_STATUS_EXP))
  }

  lemma LookKeepsRest(hz: nat, w: Wd, now: u64)
    requires hz > 0
    ensures w.status != WDT_STATUS_EN ==> TimeLeft(hz, w, now).1 == w
  {
  }

  lemma LookTraced(d: Device, call: WdHistory.Call)
    requires d.Ok() && (call.Query? || (call.WriteBegins? && d.extVer < PXG4BPFI_VER))
    ensures Traced(d.hz, d.extVer, d.origin, TimeLeft(d.hz, d.Wd(), d.jiffies).1,
                   d.history + [WdHistory.Timed(d.jiffies, call)])
  {
    hide Traced, TimerKept, TimeLeft, Mclk, WdHistory.Step;
    TraceStep(d.hz, d.extVer, d.origin, d.Wd(), d.history, WdHistory.Timed(d.jiffies, call));
    WdHistory.StepLooks(d.hz, d.extVer, d.Wd(), d.jiffies, call);
  }

  /** wdt_time_left, called for its value or at the beginning of a write. */
  method WdtTimeLeft(d: Device, ghost call: WdHistory.Call) returns (left: int)
    requires d.Ok() && (call.Query? || (call.WriteBegins? && d.extVer < PXG4BPFI_VER))
    modifies d`wdtStatus, d`history
    ensures d.Ok()
    ensures (left, d.Wd()) == TimeLeft(d.hz, old(d.Wd()), d.jiffies)
    ensures left == -1 <==> d.wdtStatus == WDT_STATUS_EXP
    ensures old(d.wdtStatus) == WDT_STATUS_EXP ==> d.wdtStatus == WDT_STATUS_EXP
    ensures old(d.wdtStatus) != WDT_STATUS_EN && old(d.wdtStatus) != WDT_STATUS_EXP ==> left == 0
    ensures WdKept(old(d.Wd()), d.Wd())
    ensures d.history == old(d.history) + [WdHistory.Timed(d.jiffies, call)]
  {
    ghost var t := WdHistory.Timed(d.jiffies, call);
    LookTraced(d, call);
    hide Traced, TimerKept, Mclk, DeltaTime, JiffiesToMsecs;
    left := 0;
    if d.wdtStatus == WDT_STATUS_EN {
      var delta := DeltaTime(d.jiffies, d.onTime);
      left := ToInt32(d.interval - JiffiesToMsecs(d.hz, delta));
      if left < 0 {
        left := -1;
        d.wdtStatus := WDT_STATUS_EXP;
      }
    } else if d.wdtStatus == WDT_STATUS_EXP {
      left := -1;
    }
    d.history := d.history + [t];
  }

  /** wdt_timer: -1 tells an expired watchdog, 0 one that is off; an enabled one answers with what is left. */
  method WdtTimer(d: Device) returns (ret: int, left: int)
    requires d.Ok()
    modifies d`wdtStatus, d`history
    ensures d.Ok()
    ensures ret == if Cap(d.caps, WD_CTL_CAP) && old(d.wdtStatus) != WDT_STATUS_UNKNOWN then BP_OK else BP_NOT_CAP
    ensures ret != BP_OK ==> d.Record() == old(d.Record())
    ensures ret == BP_OK ==> (left == -1 <==> d.wdtStatus == WDT_STATUS_EXP)
                             && d.history == old(d.history) + [WdHistory.Timed(d.jiffies, WdHistory.Query)]
    ensures ret == BP_OK && old(d.wdtStatus) == WDT_STATUS_DIS ==> left == 0 && d.wdtStatus == WDT_STATUS_DIS
    ensures ret == BP_OK && old(d.wdtStatus) == WDT_STATUS_EXP ==> left == -1
    ensures var ms := JiffiesToMsecs(d.hz, DeltaTime(d.jiffies, d.onTime));
            ret == BP_OK && old(d.wdtStatus) == WDT_STATUS_EN && d.interval < 0x8000_0000 ==>
              && (left == -1 <==> d.interval < ms <= d.interval + 0x8000_0000)
              && (ms <= d.interval ==> left == d.interval - ms && d.wdtStatus == WDT_STATUS_EN)
  {
    hide Traced, TimerKept, Mclk, JiffiesToMsecs, DeltaTime, TimeLeft;
    left := 0;
    if Cap(d.caps, WD_CTL_CAP) {
      if d.wdtStatus == WDT_STATUS_UNKNOWN {
        return BP_NOT_CAP, left;
      }
      if d.wdtStatus == WDT_STATUS_EN && d.interval < 0x8000_0000 {
        Clock.QueryExact(d.hz, d.Wd(), d.jiffies);
      }
      left := WdtTimeLeft(d, WdHistory.Query);
      return BP_OK, left;
    }
    return BP_NOT_CAP, left;
  }

  /** One kick: a clock with MDIO low, sent only if no frame is in progress. */
  method WdtPulse(d: Device) returns (ret: int)
    requires d.Ok()
    modifies d`board, d`onTime, d`history
    ensures d.Ok()
    ensures ret == if d.Reachable() && !d.wdtBusy then 0 else -1
    ensures ret == -1 ==> d.board == old(d.board) && d.Record() == old(d.Record())
    ensures ret == 0 ==> d.Wd() == Reloaded(old(d.Wd()), d.jiffies, true)
                         && d.history == old(d.history) + [WdHistory.Timed(d.jiffies, WdHistory.Kick(true))]
    ensures ret == 0 ==> !Mclk(d.variant, d.board.regs) && d.board.pic.phase.Idle?
                         && d.board.pic.regs == old(d.board.pic.regs)
                         && d.board.pic.log == old(d.board.pic.log) + [Kicked]
    ensures SameButPins(d.variant, old(d.board.regs), d.board.regs)
  {
    SameReflexive(d.variant, d.board.regs);
    if d.variant.TenGig9? && !d.hasPeer {
      return -1;
    }
    if d.wdtBusy {
      return -1;
    }
    KickTraced(d);
    hide Mclk, SameButPins, Traced, TimerKept;
    SendKick(d);
    if d.wdtStatus == WDT_STATUS_EN {
      d.onTime := d.jiffies;
    }
    d.history := d.history + [WdHistory.Timed(d.jiffies, WdHistory.Kick(true))];
    ret := 0;
  }

  /** The three steps of a kick: MDIO low throughout, MCLK low, high and low again. */
  method SendKick(d: Device)
    requires d.Ok() && !d.wdtBusy
    modifies d`board
    ensures Settled(d.variant, d.board) && !Mclk(d.variant, d.board.regs) && d.board.pic.phase.Idle?
    ensures d.board.pic.regs == old(d.board.pic.regs) && d.board.pic.log == old(d.board.pic.log) + [Kicked]
    ensures SameButPins(d.variant, old(d.board.regs), d.board.regs)
  {
    hide Act, Drive, Mclk, Peek, Rise, SameButPins, BasesFit, Edge, Traced, TimerKept;
    var v := d.variant;
    KickSeen(v, d.board);
    var ctrlExt := Peek(v, d.board, MdioReg(v));
    var ctrl := Peek(v, d.board, MclkReg(v));
    BasesRead(v, d.board);
    d.board := Act(v, d.board, ctrlExt, ctrl, Drive(v, false, false));
    DriveStep(v, old(d.board), ctrlExt, ctrl, false, false);
    ghost var b1 := d.board;
    ctrlExt := KickBase(d, ctrlExt, ctrl);
    d.board := Act(v, d.board, ctrlExt, ctrl, Drive(v, false, true));
    DriveStep(v, b1, ctrlExt, ctrl, false, true);
    ghost var b2 := d.board;
    ctrlExt := KickBase(d, ctrlExt, ctrl);
    d.board := Act(v, d.board, ctrlExt, ctrl, Drive(v, false, false));
    DriveStep(v, b2, ctrlExt, ctrl, false, false);
    SameTransitive(v, old(d.board).regs, b1.regs, b2.regs);
    SameTransitive(v, old(d.board).regs, b2.regs, d.board.regs);
  }

  lemma KickTraced(d: Device)
    requires d.Ok()
    ensures Traced(d.hz, d.extVer, d.origin, Reloaded(d.Wd(), d.jiffies, true),
                   d.history + [WdHistory.Timed(d.jiffies, WdHistory.Kick(true))])
  {
    hide Traced, TimerKept, Mclk, WdHistory.Step;
    TraceStep(d.hz, d.extVer, d.origin, d.Wd(), d.history, WdHistory.Timed(d.jiffies, WdHistory.Kick(true)));
    WdHistory.StepKicks(d.hz, d.extVer, d.Wd(), d.jiffies);
  }

  /** The Broadcom part reads its register again before each step of a kick. */
  method KickBase(d: Device, base: bv32, ctrl: bv32) returns (ctrlExt: bv32)
    requires BasesFit(d.variant, d.board.regs, base, ctrl)
    ensures BasesFit(d.variant, d.board.regs, ctrlExt, ctrl)
  {
    hide Peek, BasesFit;
    ctrlExt := base;
    if d.variant.Broadcom? {
      Refit(d.variant, d.board, base, ctrl);
      ctrlExt := Peek(d.variant, d.board, MdioReg(d.variant));
    }
  }

  /** What three "DATA 0" steps, clock low, high and low again, do to an idle PIC. */
  lemma KickSeen(v: Variant, b: Board)
    requires WellFormed(b.pic) && b.pic.phase.Idle?
    ensures var p1 := Edge(b.pic, Mclk(v, b.regs), false, false);
            var p3 := Edge(Edge(p1, false, true, false), true, false, false);
            p3.phase.Idle? && p3.regs == b.pic.regs && p3.log == b.pic.log + [Kicked]
  {
  }

  lemma SameReflexive(v: Variant, r: Regs)
    ensures SameButPins(v, r, r)
  {
    hide PinMask;
  }

  lemma BasesRead(v: Variant, b: Board)
    ensures BasesFit(v, b.regs, Peek(v, b, MdioReg(v)), Peek(v, b, MclkReg(v)))
    ensures UsesCtrl(v) || forall c :: BasesFit(v, b.regs, Peek(v, b, MdioReg(v)), c)
  {
    hide Agree, PinMask, Peek, Regs.Get;
    PeekFits(v, b, MdioReg(v));
    PeekFits(v, b, MclkReg(v));
  }

  /** One "DATA d, CLK c" step: the PIC sees one edge at most, and no other bit changes. */
  lemma DriveStep(v: Variant, b: Board, e: bv32, c: bv32, mdio: bool, mclk: bool)
    requires Settled(v, b) && BasesFit(v, b.regs, e, c)
    ensures var b' := Act(v, b, e, c, Drive(v, mdio, mclk));
            && Settled(v, b')
            && Mclk(v, b'.regs) == mclk
            && b'.pic == Edge(b.pic, Mclk(v, b.regs), mclk, mdio)
            && SameButPins(v, b.regs, b'.regs) && BasesFit(v, b'.regs, e, c)
  {
    hide Agree, PinMask, Act, Drive, Mclk, Edge;
    DriveSeen(v, b, e, c, mdio, mclk);
    DriveConfined(v, mdio, mclk);
    ActKeepsOtherBits(v, b, e, c, Drive(v, mdio, mclk));
  }

  /** wdt_timer_reload: kick the watchdog unless it is off or unknown. */
  method WdtTimerReload(d: Device) returns (ret: int)
    requires d.Ok()
    modifies d`board, d`onTime, d`history
    ensures d.Ok()
    ensures ret == if !Cap(d.caps, WD_CTL_CAP) || d.wdtStatus == WDT_STATUS_UNKNOWN then BP_NOT_CAP
                   else if d.wdtStatus == WDT_STATUS_DIS then 0 else 1
    ensures KickedOrNot(d, ret == 1 && d.Reachable() && !d.wdtBusy, old(d.board), d.board, old(d.history))
    ensures d.Wd() == Reloaded(old(d.Wd()), d.jiffies, ret == 1 && d.Reachable() && !d.wdtBusy)
    ensures SameButPins(d.variant, old(d.board.regs), d.board.regs)
  {
    hide Traced, TimerKept, SameButPins, Mclk;
    SameReflexive(d.variant, d.board.regs);
    if Cap(d.caps, WD_CTL_CAP) && d.wdtStatus != WDT_STATUS_UNKNOWN {
      if d.wdtStatus == WDT_STATUS_DIS {
        return 0;
      }
      var r := WdtPulse(d);
      return 1;
    }
    return BP_NOT_CAP;
  }

  /** Exactly one kick has gone out and been recorded, or nothing at all. */
  ghost predicate KickedOrNot(d: Device, sent: bool, b: Board, b': Board, h: seq<WdHistory.Timed>)
    reads d
  {
    if sent then
      && b'.pic.phase.Idle? && b'.pic.regs == b.pic.regs && b'.pic.log == b.pic.log + [Kicked]
      && d.history == h + [WdHistory.Timed(d.jiffies, WdHistory.Kick(true))]
    else b' == b && d.history == h
  }

  /** The timer kicks if kicks are possible at all, the bus is free and the watchdog is not off. */
  predicate TimerKicks(d: Device)
    reads d
  {
    && Cap(d.caps, WD_CTL_CAP) && d.Reachable() && !d.wdtBusy
    && d.wdtStatus != WDT_STATUS_UNKNOWN && d.wdtStatus != WDT_STATUS_DIS
  }

  /** The timer callback: retry next tick while a frame is in progress, else kick and rearm. */
  method WdResetTimer(d: Device)
    requires d.Ok()
    modifies d`board, d`onTime, d`timerExpires, d`history, d`timing
    ensures d.Ok() && d.timing == Timing(old(d.timing.clock), old(d.timing.fires) + 1, old(d.timing.clock), d.wdtBusy)
    ensures (d.Wd(), d.timerExpires)
         == TimerFire(d.hz, old(d.Wd()), old(d.timerExpires), d.resetTime, d.jiffies, d.wdtBusy,
                      Cap(d.caps, WD_CTL_CAP) && d.Reachable())
    ensures KickedOrNot(d, old(TimerKicks(d)), old(d.board), d.board, old(d.history))
    ensures SameButPins(d.variant, old(d.board.regs), d.board.regs)
  {
    hide Traced, TimerKept, SameButPins, Mclk;
    SameReflexive(d.variant, d.board.regs);
    TimerRuns(d.hz, d.Wd(), d.resetTime, d.noted, d.timing, d.jiffies, d.timerExpires, d.wdtBusy, true);
    if d.wdtBusy {
      d.timing := Timing(d.timing.clock, d.timing.fires + 1, d.timing.clock, true);
      d.timerExpires := (d.jiffies + 1) % U64;
      return;
    }
    var r := WdtTimerReload(d);
    d.timing := Timing(d.timing.clock, d.timing.fires + 1, d.timing.clock, false);
    if d.resetTime != 0 {
      d.timerExpires := (d.jiffies + RearmTicks(d.hz, d.resetTime)) % U64;
    }
  }

  /** Nothing but kicks has been recorded. */
  ghost predicate KicksRecorded(h: seq<WdHistory.Timed>, h': seq<WdHistory.Timed>) {
    h <= h' && forall i | |h| <= i < |h'| :: h'[i].call == WdHistory.Kick(true)
  }

  /** Any number of ticks go by. */
  method Pass(d: Device)
    requires d.Ok()
    modifies d`jiffies, d`timing
    ensures d.Ok() && d.timing == old(d.timing).(clock := d.timing.clock) && old(d.timing.clock) <= d.timing.clock
  {
    hide Traced, TimerKept, Mclk;
    var ticks: nat :| true;
    TimerTicks(d.hz, d.resetTime, d.noted, d.timing, d.jiffies, d.timerExpires, ticks);
    d.timing := d.timing.(clock := d.timing.clock + ticks);
    d.jiffies := (d.jiffies + ticks) % U64;
  }

  /** Between two steps of a call: time passes and the timer may fire, over and over. */
  method Preempt(d: Device)
    requires d.Ok()
    modifies d`board, d`onTime, d`timerExpires, d`jiffies, d`history, d`timing
    ensures d.Ok() && old(d.timing.fires) <= d.timing.fires
    ensures d.wdtBusy ==> d.board == old(d.board) && d.Record() == old(d.Record())
    ensures OnlyKicks(old(d.board.pic), d.board.pic, d.timing.fires - old(d.timing.fires))
    ensures KicksRecorded(old(d.history), d.history)
    ensures old(d.wdtStatus) != WDT_STATUS_EN ==> d.onTime == old(d.onTime)
    ensures SameButPins(d.variant, old(d.board.regs), d.board.regs)
  {
    hide Traced, TimerKept, SameButPins, Mclk, Added;
    SameReflexive(d.variant, d.board.regs);
    AddedNothing(d.board.pic.log);
    var fires: nat := *;
    while fires > 0
      invariant d.Ok() && old(d.timing.fires) <= d.timing.fires
      invariant d.wdtBusy ==> d.board == old(d.board) && d.Record() == old(d.Record())
      invariant d.wdtStatus != WDT_STATUS_EN ==> d.onTime == old(d.onTime)
      invariant OnlyKicks(old(d.board.pic), d.board.pic, d.timing.fires - old(d.timing.fires))
      invariant KicksRecorded(old(d.history), d.history)
      invariant SameButPins(d.variant, old(d.board.regs), d.board.regs)
    {
      ghost var before := d.board;
      ghost var n := d.timing.fires - old(d.timing.fires);
      Pass(d);
      AddedOne(before.pic.log, Kicked);
      AddedNothing(before.pic.log);
      WdResetTimer(d);
      KickAdded(old(d.board).pic.log, before.pic.log, d.board.pic.log, n);
      SameTransitive(d.variant, old(d.board.regs), before.regs, d.board.regs);
      fires := fires - 1;
    }
    Pass(d);
  }

  lemma KickAdded(a: seq<Event>, b: seq<Event>, c: seq<Event>, n: int)
    requires Added(a, b, [], n) && (Added(b, c, [], 1) || Added(b, c, [], 0))
    ensures Added(a, c, [], n + 1)
  {
    hide WithKicks;
    var none: seq<Event> := [];
    assert none + none == none;
    AddedAppend(a, b, c, none, n, none, 1);
  }

  // ----- frames -----

  /** In a frame: the busy flag is up, MCLK is low and the bases read at the start still fit. */
  ghost predicate InFrame(d: Device, ctrlExt: bv32, ctrl: bv32)
    reads d
  {
    && d.Ok() && d.wdtBusy
    && !Mclk(d.variant, d.board.regs)
    && BasesFit(d.variant, d.board.regs, ctrlExt, ctrl)
  }

  /** The register writes of one step, each preceded by a chance for the timer to fire. */
  method Step(d: Device, ctrlExt: bv32, ctrl: bv32, writes: seq<RegWrite>)
    requires d.Ok() && d.wdtBusy && |writes| <= 2
    requires Settled(d.variant, Act(d.variant, d.board, ctrlExt, ctrl, writes))
    requires |writes| == 2 ==> writes[0].reg != MclkReg(d.variant)
    modifies d`board, d`onTime, d`timerExpires, d`jiffies, d`history, d`timing
    ensures d.Record() == old(d.Record()) && old(d.timing.fires) <= d.timing.fires
    ensures d.Ok()
    ensures d.board == Act(d.variant, old(d.board), ctrlExt, ctrl, writes)
  {
    hide Merge, Base, Rise, Mdio, Traced, TimerKept;
    var i := 0;
    while i < |writes|
      invariant 0 <= i <= |writes|
      invariant d.Ok() && d.Record() == old(d.Record()) && old(d.timing.fires) <= d.timing.fires
      invariant Act(d.variant, d.board, ctrlExt, ctrl, writes[i..])
             == Act(d.variant, old(d.board), ctrlExt, ctrl, writes)
    {
      Preempt(d);
      var w := writes[i];
      assert writes[i..][1..] == writes[i + 1..];
      if i + 1 == |writes| {
        assert writes[i..] == [w];
        ActOne(d.variant, d.board, ctrlExt, ctrl, w);
      } else {
        PutElsewhere(d.variant, d.board.regs, w.reg, Merge(w, Base(d.variant, w.reg, ctrlExt, ctrl)));
      }
      d.board := Poke(d.variant, d.board, w.reg, Merge(w, Base(d.variant, w.reg, ctrlExt, ctrl)));
      i := i + 1;
    }
  }

  /** "DATA d, CLK c" inside a call. */
  method DrivePins(d: Device, ctrlExt: bv32, ctrl: bv32, mdio: bool, mclk: bool)
    requires d.Ok() && d.wdtBusy && BasesFit(d.variant, d.board.regs, ctrlExt, ctrl)
    modifies d`board, d`onTime, d`timerExpires, d`jiffies, d`history, d`timing
    ensures d.Record() == old(d.Record()) && old(d.timing.fires) <= d.timing.fires
    ensures d.Ok() && BasesFit(d.variant, d.board.regs, ctrlExt, ctrl)
    ensures Mclk(d.variant, d.board.regs) == mclk
    ensures d.board.pic == Edge(old(d.board.pic), Mclk(d.variant, old(d.board.regs)), mclk, mdio)
    ensures SameButPins(d.variant, old(d.board.regs), d.board.regs)
  {
    DriveStep(d.variant, d.board, ctrlExt, ctrl, mdio, mclk);
    assert ClockLast(d.variant, Drive(d.variant, mdio, mclk));
    hide Act, Drive, Mclk, BasesFit, SameButPins, Edge, Traced, TimerKept;
    Step(d, ctrlExt, ctrl, Drive(d.variant, mdio, mclk));
  }

  /** write_pulse: the low `len` bits of `value`, highest first, one clock each. */
  method WritePulse(d: Device, ctrlExt: bv32, value: nat, len: nat)
    requires InFrame(d, ctrlExt, Peek(d.variant, d.board, MclkReg(d.variant)))
    modifies d`board, d`onTime, d`timerExpires, d`jiffies, d`history, d`timing
    ensures d.Record() == old(d.Record()) && old(d.timing.fires) <= d.timing.fires
    ensures InFrame(d, ctrlExt, Peek(d.variant, d.board, MclkReg(d.variant)))
    ensures d.board.pic == Clocks(old(d.board.pic), MsbFirst(value, len))
    ensures SameButPins(d.variant, old(d.board.regs), d.board.regs)
  {
    hide Rise, Mclk, Peek, BasesFit, SameButPins, Traced, TimerKept;
    SameReflexive(d.variant, d.board.regs);
    var ctrl := Peek(d.variant, d.board, MclkReg(d.variant));
    var i: nat := len;
    while i > 0
      invariant i <= len
      invariant InFrame(d, ctrlExt, ctrl) && d.Record() == old(d.Record()) && old(d.timing.fires) <= d.timing.fires
      invariant Clocks(d.board.pic, MsbFirst(value, i)) == Clocks(old(d.board.pic), MsbFirst(value, len))
      invariant SameButPins(d.variant, old(d.board.regs), d.board.regs)
    {
      i := i - 1;
      var bit := BitAt(value, i);
      ghost var r0 := d.board.regs;
      DrivePins(d, ctrlExt, ctrl, bit, true);
      ghost var r1 := d.board.regs;
      DrivePins(d, ctrlExt, ctrl, bit, false);
      SameTransitive(d.variant, r0, r1, d.board.regs);
      SameTransitive(d.variant, old(d.board.regs), r0, d.board.regs);
    }
    RefitCtrl(d.variant, d.board, ctrlExt, ctrl);
  }

  /** The turnaround clock of a read, as the PIC sees it. */
  lemma TurnStep(v: Variant, b: Board, e: bv32, c: bv32)
    requires Settled(v, b) && !Mclk(v, b.regs) && b.pic.phase.Turn? && BasesFit(v, b.regs, e, c)
    ensures var b' := Act(v, b, e, c, TurnAround(v)); var addr := b.pic.phase.addr;
            && Mclk(v, b'.regs) && (v.TenGig9? ==> Released(v, b'.regs))
            && b'.pic == b.pic.(phase := Shift(addr, b.pic.regs[addr], 0))
            && SameButPins(v, b.regs, b'.regs) && BasesFit(v, b'.regs, e, c)
            && ClockLast(v, TurnAround(v))
  {
    assert ClockLast(v, TurnAround(v));
    TurnAroundConfined(v);
    hide Agree, PinMask, Act, After, TurnAround, Mclk, Mdio;
    StepIsOneEdge(v, b, e, c, TurnAround(v));
    TurnAroundLevels(v, b.regs, e, c);
    ActKeepsOtherBits(v, b, e, c, TurnAround(v));
  }

  /** A data clock of a read: the PIC owns MDIO, so what it leaves there is what the driver reads. */
  lemma ReadStep(v: Variant, b: Board, e: bv32, c: bv32, mclk: bool)
    requires WellFormed(b.pic) && BasesFit(v, b.regs, e, c) && (v.TenGig9? ==> Released(v, b.regs))
    ensures var b' := Act(v, b, e, c, ReadClock(v, mclk));
            && Mclk(v, b'.regs) == mclk && Released(v, b'.regs)
            && b'.pic == Edge(b.pic, Mclk(v, b.regs), mclk, b.pic.line)
            && SameButPins(v, b.regs, b'.regs) && BasesFit(v, b'.regs, e, c)
            && ClockLast(v, ReadClock(v, mclk))
  {
    assert ClockLast(v, ReadClock(v, mclk));
    ReadClockConfined(v, mclk);
    hide Agree, PinMask, Act, After, ReadClock, Mclk, Mdio, Rise;
    StepIsOneEdge(v, b, e, c, ReadClock(v, mclk));
    ReadClockLevels(v, b.regs, e, c, mclk);
    ActKeepsOtherBits(v, b, e, c, ReadClock(v, mclk));
  }

  lemma ReleasedShows(v: Variant, r: Regs, line: bool)
    requires Released(v, r)
    ensures Mdio(v, r, line) == line
  {
  }

  lemma OverlayHigh(value: bv32, bit: bv32)
    requires bit != 0
    ensures Has(Overlay(value, bit, true), bit)
  {
    assert (value | bit) & bit == bit;
  }

  lemma OverlayLow(value: bv32, bit: bv32)
    ensures !Has(Overlay(value, bit, false), bit)
  {
    assert (value & !bit) & bit == 0;
  }

  /** The input bit of the register read back is the level the PIC left on MDIO. */
  lemma PeekShowsLine(v: Variant, b: Board)
    requires Released(v, b.regs)
    ensures Has(Peek(v, b, MdioReg(v)), MdioInput(v)) == b.pic.line
  {
    ReleasedShows(v, b.regs, b.pic.line);
    assert MdioInput(v) != 0;
    hide Mdio, Released, Has, Overlay, MdioInput;
    if b.pic.line {
      OverlayHigh(b.regs.Get(MdioReg(v)), MdioInput(v));
    } else {
      OverlayLow(b.regs.Get(MdioReg(v)), MdioInput(v));
    }
  }

  /** One pass of read_pulse's loop: clock low, clock high, read the register back. */
  method ReadBit(d: Device, base: bv32, ctrl: bv32) returns (bit: bool, ctrlExt: bv32)
    requires d.Ok() && d.wdtBusy && Mclk(d.variant, d.board.regs) && BasesFit(d.variant, d.board.regs, base, ctrl)
    requires d.variant.TenGig9? ==> Released(d.variant, d.board.regs)
    requires d.board.pic.phase.Shift?
    modifies d`board, d`onTime, d`timerExpires, d`jiffies, d`history, d`timing
    ensures d.Record() == old(d.Record()) && old(d.timing.fires) <= d.timing.fires
    ensures d.Ok() && Mclk(d.variant, d.board.regs) && BasesFit(d.variant, d.board.regs, ctrlExt, ctrl)
    ensures Released(d.variant, d.board.regs)
    ensures d.board.pic == Rise(Fall(old(d.board.pic)), true)
    ensures bit == d.board.pic.line
    ensures SameButPins(d.variant, old(d.board.regs), d.board.regs)
  {
    hide Mclk, Mdio, Released, BasesFit, SameButPins, Has, Act, Peek, ReadClock, Traced, TimerKept;
    var v := d.variant;
    ReadStep(v, d.board, base, ctrl, false);
    Step(d, base, ctrl, ReadClock(v, false));
    ghost var low := d.board.regs;
    ReadStep(v, d.board, base, ctrl, true);
    Step(d, base, ctrl, ReadClock(v, true));
    SameTransitive(v, old(d.board.regs), low, d.board.regs);
    PeekShowsLine(v, d.board);
    Refit(v, d.board, base, ctrl);
    ctrlExt := Peek(v, d.board, MdioReg(v));
    bit := Has(ctrlExt, MdioInput(v));
  }

  /**
   read_pulse: eight clocks, the byte read most significant bit first. (`ctrl_val |= 1 << i` adds,
   for bit i is still clear.)
   */
  method ReadPulse(d: Device, base: bv32) returns (value: nat)
    requires d.Ok() && d.wdtBusy && Mclk(d.variant, d.board.regs)
    requires BasesFit(d.variant, d.board.regs, base, Peek(d.variant, d.board, MclkReg(d.variant)))
    requires d.variant.TenGig9? ==> Released(d.variant, d.board.regs)
    requires d.board.pic.phase.Shift? && d.board.pic.phase.sent == 0
    modifies d`board, d`onTime, d`timerExpires, d`jiffies, d`history, d`timing
    ensures d.Record() == old(d.Record()) && old(d.timing.fires) <= d.timing.fires
    ensures d.Ok()
    ensures value == old(d.board.pic.phase.value)
    ensures d.board.pic.phase.Idle? && d.board.pic.regs == old(d.board.pic.regs)
    ensures d.board.pic.log == old(d.board.pic.log) + [Fetched(old(d.board.pic.phase.addr), value)]
    ensures SameButPins(d.variant, old(d.board.regs), d.board.regs)
  {
    hide Mclk, Mdio, Peek, Released, BasesFit, SameButPins, BitAt, Traced, TimerKept;
    var v := d.variant;
    ghost var p := d.board.pic;
    SameReflexive(v, d.board.regs);
    SmallPowers();
    var ctrlExt := base;
    var ctrl := Peek(v, d.board, MclkReg(v));
    value := 0;
    var i: nat := RD_DATA_LEN;
    while i > 0
      invariant i <= 8
      invariant d.Ok() && d.wdtBusy && Mclk(v, d.board.regs) && BasesFit(v, d.board.regs, ctrlExt, ctrl)
      invariant v.TenGig9? ==> Released(v, d.board.regs)
      invariant d.Record() == old(d.Record()) && old(d.timing.fires) <= d.timing.fires
      invariant value + p.phase.value % Pow2(i) == p.phase.value
      invariant d.board.pic.phase == if i > 0 then Shift(p.phase.addr, p.phase.value, 8 - i) else Idle
      invariant d.board.pic.regs == p.regs
      invariant d.board.pic.log == if i > 0 then p.log else p.log + [Fetched(p.phase.addr, p.phase.value)]
      invariant SameButPins(v, old(d.board.regs), d.board.regs)
    {
      hide Pow2;
      i := i - 1;
      ghost var before := d.board.regs;
      var bit;
      bit, ctrlExt := ReadBit(d, ctrlExt, ctrl);
      SameTransitive(v, old(d.board.regs), before, d.board.regs);
      DigitAt(p.phase.value, i);
      if bit {
        value := value + Pow2(i);
      }
    }
    assert p.phase.value % Pow2(0) == 0;
  }

  lemma Refit(v: Variant, b: Board, e: bv32, c: bv32)
    requires BasesFit(v, b.regs, e, c)
    ensures BasesFit(v, b.regs, Peek(v, b, MdioReg(v)), c)
  {
    hide Agree, PinMask, Peek, Regs.Get;
    PeekFits(v, b, MdioReg(v));
  }

  /** Base values stay good as long as nothing but pins has changed since they were read. */
  lemma StillFits(v: Variant, r: Regs, r': Regs, e: bv32, c: bv32)
    requires BasesFit(v, r, e, c) && SameButPins(v, r, r')
    ensures BasesFit(v, r', e, c)
  {
    hide Agree, PinMask, Regs.Get;
    AgreeTransitive(e, r.Get(MdioReg(v)), r'.Get(MdioReg(v)), PinMask(v, MdioReg(v)));
    if UsesCtrl(v) {
      AgreeTransitive(c, r.Get(MclkReg(v)), r'.Get(MclkReg(v)), PinMask(v, MclkReg(v)));
    }
  }

  lemma RefitCtrl(v: Variant, b: Board, e: bv32, c: bv32)
    requires BasesFit(v, b.regs, e, c)
    ensures BasesFit(v, b.regs, e, Peek(v, b, MclkReg(v)))
  {
    hide Agree, PinMask, Peek, Regs.Get;
    PeekFits(v, b, MclkReg(v));
  }

  /** The value of the digit at position i. */
  lemma DigitAt(value: nat, i: nat)
    ensures value % Pow2(i + 1) == (if BitAt(value, i) then Pow2(i) else 0) + value % Pow2(i)
  {
    SplitDigit(value, Pow2(i));
  }

  /** Raise the busy flag, read the bases and park both wires low; the PIC is then ready for a frame. */
  method OpenBus(d: Device) returns (ctrlExt: bv32, ctrl: bv32)
    requires d.Ok() && !d.wdtBusy
    modifies d`board, d`onTime, d`timerExpires, d`jiffies, d`wdtBusy, d`history, d`timing
    ensures old(d.wdtStatus) != WDT_STATUS_EN ==> d.onTime == old(d.onTime)
    ensures KicksRecorded(old(d.history), d.history) && old(d.timing.fires) <= d.timing.fires
    ensures Ready(d.board.pic) && InFrame(d, ctrlExt, ctrl)
    ensures InFrame(d, ctrlExt, Peek(d.variant, d.board, MclkReg(d.variant)))
    ensures OnlyKicks(old(d.board.pic), d.board.pic, d.timing.fires - old(d.timing.fires))
    ensures SameButPins(d.variant, old(d.board.regs), d.board.regs)
  {
    hide Mclk, BasesFit, SameButPins, Rise, Peek, Traced, TimerKept;
    Preempt(d);
    ghost var before := d.board.regs;
    d.wdtBusy := true;
    Preempt(d);
    ctrlExt := Peek(d.variant, d.board, MdioReg(d.variant));
    ctrl := Peek(d.variant, d.board, MclkReg(d.variant));
    BasesRead(d.variant, d.board);
    DrivePins(d, ctrlExt, ctrl, false, false);
    SameTransitive(d.variant, old(d.board.regs), before, d.board.regs);
    RefitCtrl(d.variant, d.board, ctrlExt, ctrl);
  }

  lemma WriteBitsSplit(p: Pic, addr: nat, value: byte)
    requires WellFormed(p)
    ensures Clocks(Clocks(Clocks(Clocks(p, MsbFirst(SYNC_CMD_VAL, SYNC_CMD_LEN)), MsbFirst(WR_CMD_VAL, WR_CMD_LEN)),
                          MsbFirst(addr, ADDR_CMD_LEN)), MsbFirst(value, WR_DATA_LEN))
         == Clocks(p, WriteBits(addr, value))
  {
    hide Rise, Clocks, MsbFirst, Traced, TimerKept;
    var a, b, c, e := MsbFirst(SYNC_CMD_VAL, SYNC_CMD_LEN), MsbFirst(WR_CMD_VAL, WR_CMD_LEN),
                      MsbFirst(addr, ADDR_CMD_LEN), MsbFirst(value, WR_DATA_LEN);
    ClocksAppend(p, a, b);
    ClocksAppend(p, a + b, c);
    ClocksAppend(p, a + b + c, e);
  }

  lemma ReadBitsSplit(p: Pic, addr: nat)
    requires WellFormed(p)
    ensures Clocks(Clocks(Clocks(p, MsbFirst(SYNC_CMD_VAL, SYNC_CMD_LEN)), MsbFirst(RD_CMD_VAL, RD_CMD_LEN)),
                   MsbFirst(addr, ADDR_CMD_LEN))
         == Clocks(p, ReadBits(addr))
  {
    hide Rise, Clocks, MsbFirst, Traced, TimerKept;
    var a, b, c := MsbFirst(SYNC_CMD_VAL, SYNC_CMD_LEN), MsbFirst(RD_CMD_VAL, RD_CMD_LEN), MsbFirst(addr, ADDR_CMD_LEN);
    ClocksAppend(p, a, b);
    ClocksAppend(p, a + b, c);
  }

  /** Sync, operation and address: what writes and reads have in common. */
  method SendHeader(d: Device, ctrlExt: bv32, op: nat, opLen: nat, addr: byte)
    requires InFrame(d, ctrlExt, Peek(d.variant, d.board, MclkReg(d.variant)))
    modifies d`board, d`onTime, d`timerExpires, d`jiffies, d`history, d`timing
    ensures d.Record() == old(d.Record()) && old(d.timing.fires) <= d.timing.fires
    ensures InFrame(d, ctrlExt, Peek(d.variant, d.board, MclkReg(d.variant)))
    ensures d.board.pic == Clocks(Clocks(Clocks(old(d.board.pic), MsbFirst(SYNC_CMD_VAL, SYNC_CMD_LEN)),
                                         MsbFirst(op, opLen)), MsbFirst(addr, ADDR_CMD_LEN))
    ensures SameButPins(d.variant, old(d.board.regs), d.board.regs)
  {
    hide Rise, Clocks, Mclk, BasesFit, SameButPins, Peek, MsbFirst, Traced, TimerKept;
    WritePulse(d, ctrlExt, SYNC_CMD_VAL, SYNC_CMD_LEN);
    ghost var r1 := d.board.regs;
    WritePulse(d, ctrlExt, op, opLen);
    ghost var r2 := d.board.regs;
    WritePulse(d, ctrlExt, addr, ADDR_CMD_LEN);
    SameTransitive(d.variant, r1, r2, d.board.regs);
    SameTransitive(d.variant, old(d.board.regs), r1, d.board.regs);
  }

  /** The sixteen clocks of a write frame and the parking of the wires. */
  method SendWrite(d: Device, ctrlExt: bv32, ctrl: bv32, value: byte, addr: byte)
    requires InFrame(d, ctrlExt, ctrl) && Ready(d.board.pic)
    requires InFrame(d, ctrlExt, Peek(d.variant, d.board, MclkReg(d.variant)))
    modifies d`board, d`onTime, d`timerExpires, d`jiffies, d`history, d`timing
    ensures d.Record() == old(d.Record()) && old(d.timing.fires) <= d.timing.fires
    ensures d.Ok()
    ensures d.board.pic == old(d.board.pic).(regs := old(d.board.pic.regs)[addr % 16 := value],
                                             log := old(d.board.pic.log) + [Wrote(addr % 16, value)])
    ensures SameButPins(d.variant, old(d.board.regs), d.board.regs)
  {
    hide Rise, Clocks, Mclk, BasesFit, SameButPins, Peek, MsbFirst, WriteBits, Traced, TimerKept;
    WriteBitsSplit(d.board.pic, addr, value);
    WriteFrame(d.board.pic, addr, value);
    SendHeader(d, ctrlExt, WR_CMD_VAL, WR_CMD_LEN, addr);
    ghost var r1 := d.board.regs;
    WritePulse(d, ctrlExt, value, WR_DATA_LEN);
    ghost var r2 := d.board.regs;
    SameTransitive(d.variant, old(d.board.regs), r1, r2);
    StillFits(d.variant, old(d.board.regs), r2, ctrlExt, ctrl);
    DrivePins(d, ctrlExt, ctrl, false, false);
    SameTransitive(d.variant, old(d.board.regs), r2, d.board.regs);
  }

  /** The steps of a write on the watchdog: its beginning, kicks, its end. */
  ghost predicate WriteRecorded(h: seq<WdHistory.Timed>, h': seq<WdHistory.Timed>, begun: u64, done: u64, addr: nat) {
    && |h'| >= |h| + 2 && h <= h'
    && h'[|h|] == WdHistory.Timed(begun, WdHistory.WriteBegins)
    && KicksRecorded(h'[..|h| + 1], h'[..|h'| - 1])
    && h'[|h'| - 1] == WdHistory.Timed(done, WdHistory.WriteEnds(addr))
  }

  /** What a call may leave unsaid: kicks before the one frame, none of them the call's own. */
  lemma FrameAdded(a: seq<Event>, b: seq<Event>, e: Event, n: int)
    requires Added(a, b, [], n)
    ensures Added(a, b + [e], [e], n)
  {
    hide WithKicks;
    AddedOne(b, e);
    var none: seq<Event> := [];
    AddedAppend(a, b, b + [e], none, n, [e], 0);
    assert none + [e] == [e];
  }

  /** The step a write's beginning or end takes, once the fields are as it says. */
  method Recorded(d: Device, ghost w: Wd, ghost call: WdHistory.Call)
    requires d.hz > 0 && Traced(d.hz, d.extVer, d.origin, w, d.history)
    requires d.Wd() == WdHistory.Step(d.hz, d.extVer, w, WdHistory.Timed(d.jiffies, call))
    modifies d`history
    ensures d.history == old(d.history) + [WdHistory.Timed(d.jiffies, call)]
    ensures Traced(d.hz, d.extVer, d.origin, d.Wd(), d.history)
  {
    TraceStep(d.hz, d.extVer, d.origin, w, d.history, WdHistory.Timed(d.jiffies, call));
    hide Traced, TimerKept;
    d.history := d.history + [WdHistory.Timed(d.jiffies, call)];
  }

  /** The look at the clock before a write. */
  method BeginWrite(d: Device)
    requires d.Ok()
    modifies d`wdtStatus, d`history
    ensures d.Ok() && WdKept(old(d.Wd()), d.Wd()) && d.onTime == old(d.onTime)
    ensures d.Wd() == if d.extVer < PXG4BPFI_VER then TimeLeft(d.hz, old(d.Wd()), d.jiffies).1 else old(d.Wd())
    ensures d.history == old(d.history) + [WdHistory.Timed(d.jiffies, WdHistory.WriteBegins)]
  {
    LookKeepsRest(d.hz, d.Wd(), d.jiffies);
    hide Traced, TimerKept, TimeLeft, Mclk;
    if d.wdtStatus == WDT_STATUS_EN && d.extVer < PXG4BPFI_VER {
      var left := WdtTimeLeft(d, WdHistory.WriteBegins);
    } else {
      Recorded(d, d.Wd(), WdHistory.WriteBegins);
    }
  }

  /** The restart after a write to the command register of an old part. */
  method EndWrite(d: Device, addr: byte)
    requires d.Ok()
    modifies d`onTime, d`history
    ensures d.Ok()
    ensures d.Wd() == Reloaded(old(d.Wd()), d.jiffies, d.extVer < PXG4BPFI_VER && addr == CMND_REG_ADDR)
    ensures d.history == old(d.history) + [WdHistory.Timed(d.jiffies, WdHistory.WriteEnds(addr))]
  {
    hide Traced, TimerKept, TimeLeft, Mclk;
    ghost var w := d.Wd();
    if d.wdtStatus == WDT_STATUS_EN && d.extVer < PXG4BPFI_VER && addr == CMND_REG_ADDR {
      d.onTime := d.jiffies;
    }
    Recorded(d, w, WdHistory.WriteEnds(addr));
  }

  /**
   write_reg: under any timer interference the PIC stores the byte at the address and sees one
   frame after what it saw before, with kicks of the timer at most between; without a partner
   port a 10G9 sends nothing.
   */
  method WriteReg(d: Device, value: byte, addr: byte)
    requires d.Ok() && !d.wdtBusy
    modifies d`board, d`onTime, d`timerExpires, d`jiffies, d`wdtBusy, d`wdtStatus, d`history, d`timing
    ensures d.Ok() && !d.wdtBusy && old(d.timing.fires) <= d.timing.fires
    ensures WdKept(old(d.Wd()), d.Wd())
    ensures old(d.wdtStatus) != WDT_STATUS_EN ==> d.onTime == old(d.onTime)
    ensures if d.Reachable() then WriteRecorded(old(d.history), d.history, old(d.jiffies), d.jiffies, addr)
            else d.Record() == old(d.Record())
    ensures var looks := d.Reachable() && d.extVer < PXG4BPFI_VER;
            && d.wdtStatus == (if looks then TimeLeft(d.hz, old(d.Wd()), old(d.jiffies)).1.status else old(d.wdtStatus))
            && (looks && d.wdtStatus == WDT_STATUS_EN && addr == CMND_REG_ADDR ==> d.onTime == d.jiffies)
    ensures SameButPins(d.variant, old(d.board.regs), d.board.regs)
    ensures d.Reachable() ==>
              && d.board.pic.regs == old(d.board.pic.regs)[addr % 16 := value]
              && Added(old(d.board.pic.log), d.board.pic.log, [Wrote(addr % 16, value)],
                       d.timing.fires - old(d.timing.fires))
    ensures !d.Reachable() ==> d.board == old(d.board)
  {
    hide Rise, Clocks, Mclk, BasesFit, SameButPins, Peek, Mdio, TimeLeft, Traced, TimerKept, Added;
    SameReflexive(d.variant, d.board.regs);
    if d.variant.TenGig9? && !d.hasPeer {
      return;
    }
    BeginWrite(d);
    ghost var begun := d.history;
    var ctrlExt, ctrl := OpenBus(d);
    ghost var open := d.board;
    ghost var n := d.timing.fires - old(d.timing.fires);
    FrameAdded(old(d.board).pic.log, open.pic.log, Wrote(addr % 16, value), n);
    SendWrite(d, ctrlExt, ctrl, value, addr);
    AddedMore(old(d.board).pic.log, d.board.pic.log, [Wrote(addr % 16, value)], n,
              d.timing.fires - old(d.timing.fires));
    SameTransitive(d.variant, old(d.board.regs), open.regs, d.board.regs);
    EndWrite(d, addr);
    assert d.history[..|begun|] == begun;
    d.wdtBusy := false;
  }

  lemma AddedMore(a: seq<Event>, b: seq<Event>, report: seq<Event>, n: int, m: int)
    requires n <= m && Added(a, b, report, n)
    ensures Added(a, b, report, m)
  {
    hide WithKicks;
  }

  /** The turnaround clock inside a call. */
  method TurnBus(d: Device, ctrlExt: bv32, ctrl: bv32)
    requires InFrame(d, ctrlExt, ctrl) && d.board.pic.phase.Turn?
    modifies d`board, d`onTime, d`timerExpires, d`jiffies, d`history, d`timing
    ensures d.Record() == old(d.Record()) && old(d.timing.fires) <= d.timing.fires
    ensures d.Ok() && Mclk(d.variant, d.board.regs) && BasesFit(d.variant, d.board.regs, ctrlExt, ctrl)
    ensures d.variant.TenGig9? ==> Released(d.variant, d.board.regs)
    ensures var addr := old(d.board.pic.phase.addr);
            d.board.pic == old(d.board.pic).(phase := Shift(addr, old(d.board.pic.regs)[addr], 0))
    ensures SameButPins(d.variant, old(d.board.regs), d.board.regs)
  {
    TurnStep(d.variant, d.board, ctrlExt, ctrl);
    hide Act, TurnAround, Mclk, BasesFit, SameButPins, Released, Traced, TimerKept;
    Step(d, ctrlExt, ctrl, TurnAround(d.variant));
  }

  /** The clocks of a read frame after its header. */
  method ReceiveByte(d: Device, ctrlExt: bv32, ctrl: bv32) returns (value: nat)
    requires InFrame(d, ctrlExt, ctrl) && d.board.pic.phase.Turn?
    modifies d`board, d`onTime, d`timerExpires, d`jiffies, d`history, d`timing
    ensures d.Record() == old(d.Record()) && old(d.timing.fires) <= d.timing.fires
    ensures d.Ok() && d.board.pic.phase.Idle? && d.board.pic.regs == old(d.board.pic.regs)
    ensures value == old(d.board.pic.regs[d.board.pic.phase.addr])
    ensures d.board.pic.log == old(d.board.pic.log) + [Fetched(old(d.board.pic.phase.addr), value)]
    ensures SameButPins(d.variant, old(d.board.regs), d.board.regs)
  {
    hide Rise, Mclk, BasesFit, SameButPins, Peek, Mdio, Released, Traced, TimerKept;
    TurnBus(d, ctrlExt, ctrl);
    ghost var turned := d.board.regs;
    RefitCtrl(d.variant, d.board, ctrlExt, ctrl);
    value := ReadPulse(d, ctrlExt);
    SameTransitive(d.variant, old(d.board.regs), turned, d.board.regs);
  }

  /** read_reg's last step reads some bases again, depending on the variant. */
  method ReparkBus(d: Device, e: bv32, c: bv32)
    requires d.Ok() && d.wdtBusy && BasesFit(d.variant, d.board.regs, e, c)
    modifies d`board, d`onTime, d`timerExpires, d`jiffies, d`history, d`timing
    ensures d.Record() == old(d.Record()) && old(d.timing.fires) <= d.timing.fires
    ensures d.Ok()
    ensures d.board.pic == old(d.board.pic).(line := d.board.pic.line)
    ensures SameButPins(d.variant, old(d.board.regs), d.board.regs)
  {
    hide Rise, Mclk, BasesFit, SameButPins, Peek, Traced, TimerKept;
    var v := d.variant;
    var ctrlExt, ctrl := e, c;
    if v.TenGig9? || v.Broadcom? || v.TenGig? {
      Refit(v, d.board, ctrlExt, ctrl);
      ctrlExt := Peek(v, d.board, MdioReg(v));
    }
    if v.TenGig9? || v.X540? {
      RefitCtrl(v, d.board, ctrlExt, ctrl);
      ctrl := Peek(v, d.board, MclkReg(v));
    }
    DrivePins(d, ctrlExt, ctrl, false, false);
  }

  /** The seventeen clocks of a read frame and the parking of the wires. */
  method SendRead(d: Device, ctrlExt: bv32, ctrl: bv32, addr: byte) returns (value: nat)
    requires InFrame(d, ctrlExt, ctrl) && Ready(d.board.pic)
    requires InFrame(d, ctrlExt, Peek(d.variant, d.board, MclkReg(d.variant)))
    modifies d`board, d`onTime, d`timerExpires, d`jiffies, d`history, d`timing
    ensures d.Record() == old(d.Record()) && old(d.timing.fires) <= d.timing.fires
    ensures d.Ok()
    ensures value == old(d.board.pic.regs)[addr % 16]
    ensures d.board.pic.phase.Idle? && d.board.pic.regs == old(d.board.pic.regs)
    ensures d.board.pic.log == old(d.board.pic.log) + [Fetched(addr % 16, value)]
    ensures SameButPins(d.variant, old(d.board.regs), d.board.regs)
  {
    hide Rise, Clocks, Mclk, BasesFit, SameButPins, Peek, MsbFirst, ReadBits, Mdio, Released, Traced, TimerKept;
    ReadBitsSplit(d.board.pic, addr);
    ReadHeader(d.board.pic, addr);
    SendHeader(d, ctrlExt, RD_CMD_VAL, RD_CMD_LEN, addr);
    ghost var r1 := d.board.regs;
    StillFits(d.variant, old(d.board.regs), r1, ctrlExt, ctrl);
    value := ReceiveByte(d, ctrlExt, ctrl);
    ghost var r2 := d.board.regs;
    StillFits(d.variant, r1, r2, ctrlExt, ctrl);
    ReparkBus(d, ctrlExt, ctrl);
    SameTransitive(d.variant, r1, r2, d.board.regs);
    SameTransitive(d.variant, old(d.board.regs), r1, d.board.regs);
  }

  /**
   read_reg: under any timer interference the byte the PIC holds at the address comes back,
   nothing is stored, and the PIC sees one read frame, with kicks of the timer at most before it;
   without a partner port a 10G9 gets -1.
   */
  method ReadReg(d: Device, addr: byte) returns (ret: int)
    requires d.Ok() && !d.wdtBusy
    modifies d`board, d`onTime, d`timerExpires, d`jiffies, d`wdtBusy, d`history, d`timing
    ensures d.Ok() && !d.wdtBusy && old(d.timing.fires) <= d.timing.fires
    ensures old(d.wdtStatus) != WDT_STATUS_EN ==> d.onTime == old(d.onTime)
    ensures KicksRecorded(old(d.history), d.history)
    ensures SameButPins(d.variant, old(d.board.regs), d.board.regs)
    ensures d.Reachable() ==>
              && ret == old(d.board.pic.regs)[addr % 16] && d.board.pic.regs == old(d.board.pic.regs)
              && Added(old(d.board.pic.log), d.board.pic.log, [Fetched(addr % 16, ret)],
                       d.timing.fires - old(d.timing.fires))
    ensures !d.Reachable() ==> ret == -1 && d.board == old(d.board)
  {
    hide Rise, Clocks, Mclk, BasesFit, SameButPins, Peek, Mdio, Traced, TimerKept, Added;
    SameReflexive(d.variant, d.board.regs);
    if d.variant.TenGig9? && !d.hasPeer {
      return -1;
    }
    var ctrlExt, ctrl := OpenBus(d);
    ghost var open := d.board;
    ghost var e := Fetched(addr % 16, open.pic.regs[addr % 16]);
    ghost var n := d.timing.fires - old(d.timing.fires);
    FrameAdded(old(d.board).pic.log, open.pic.log, e, n);
    ret := SendRead(d, ctrlExt, ctrl, addr);
    AddedMore(old(d.board).pic.log, d.board.pic.log, [e], n, d.timing.fires - old(d.timing.fires));
    SameTransitive(d.variant, old(d.board.regs), open.regs, d.board.regs);
    d.wdtBusy := false;
  }
}
