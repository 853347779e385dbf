/** Any sequence of bus calls, made while the auto-reset timer fires as it likes. */
module BusRun {
  import opened Codes
  import opened Pic
  import opened Pins
  import opened Runs
  import opened Watchdog
  import opened Device
  import opened Bus

  lemma {:induction false} FramesAppend(a: seq<Event>, b: seq<Event>)
    ensures Frames(a + b) == Frames(a) + Frames(b) && Kicks(a + b) == Kicks(a) + Kicks(b)
    decreases |b|
  {
    if b == [] {
      assert a + b == a;
    } else {
      var n := |b| - 1;
      assert a + b == (a + b[..n]) + [b[n]];
      FramesAppend(a, b[..n]);
      FramesStep(a + b[..n], b[n]);
    }
  }

  /** Kicks put in between change neither the frames nor their order, and none put in means none there. */
  lemma AddedKeeps(before: seq<Event>, after: seq<Event>, report: seq<Event>, spare: int)
    requires Added(before, after, report, spare)
    ensures Frames(after) == Frames(before) + Frames(report) && Kicks(after) >= Kicks(before) + Kicks(report)
    ensures spare <= 0 ==> after == before + report
  {
    var more := after[|before|..];
    assert after == before + more;
    WithKicksKeeps(report, more);
    FramesAppend(before, more);
  }

  /** One call as the run sees it. */
  method Perform(d: Device, op: Op) returns (ret: int)
    requires d.Ok() && !d.wdtBusy && d.Reachable() && Sound(op)
    modifies d
    ensures d.Ok() && !d.wdtBusy && old(d.timing.fires) <= d.timing.fires
    ensures d.board.pic.regs == Effect(old(d.board.pic.regs), op)
    ensures Added(old(d.board.pic.log), d.board.pic.log, [Entry(old(d.board.pic.regs), op)],
                  d.timing.fires - old(d.timing.fires))
    ensures op.ReadReg? ==> ret == old(d.board.pic.regs)[op.addr]
    ensures SameButPins(d.variant, old(d.board.regs), d.board.regs)
  {
    hide SameButPins, Added, Mclk, TimeLeft, Traced, TimerKept, WriteRecorded;
    ret := BP_OK;
    match op
    case WriteReg(addr, value) =>
      assert addr % 16 == addr;
      Bus.WriteReg(d, value, addr);
    case ReadReg(addr, _) =>
      assert addr % 16 == addr;
      ret := Bus.ReadReg(d, addr);
    case WdtPulse =>
      Preempt(d);
      ghost var b := d.board;
      FrameAdded(old(d.board).pic.log, b.pic.log, Kicked, d.timing.fires - old(d.timing.fires));
      ret := Bus.WdtPulse(d);
      Wires.SameTransitive(d.variant, old(d.board.regs), b.regs, d.board.regs);
  }

  /**
   Frame integrity: with the timer free to interrupt between any two register accesses of every
   call, the PIC sees the frames and kicks of the uninterrupted run, all of them and in their order,
   and besides them only kicks of the timer, no more than it ran. It ends up with the registers that
   run gives it, and every read returns what that run would have read.
   */
  method PerformAll(d: Device, ops: seq<Op>) returns (got: seq<int>)
    requires d.Ok() && !d.wdtBusy && d.Reachable() && AllSound(ops)
    modifies d
    ensures d.Ok() && !d.wdtBusy && old(d.timing.fires) <= d.timing.fires
    ensures d.board.pic.regs == Store(old(d.board.pic.regs), ops)
    ensures Added(old(d.board.pic.log), d.board.pic.log, Report(old(d.board.pic.regs), ops),
                  d.timing.fires - old(d.timing.fires))
    ensures d.timing.fires == old(d.timing.fires) ==>
              d.board.pic.log == old(d.board.pic.log) + Report(old(d.board.pic.regs), ops)
    ensures Frames(d.board.pic.log) == Frames(old(d.board.pic.log)) + Frames(Report(old(d.board.pic.regs), ops))
    ensures Kicks(d.board.pic.log) >= Kicks(old(d.board.pic.log)) + Kicks(Report(old(d.board.pic.regs), ops))
    ensures |got| == |ops|
    ensures forall i | 0 <= i < |ops| && ops[i].ReadReg? ::
              got[i] == LastWritten(ops[..i], ops[i].addr, old(d.board.pic.regs)[ops[i].addr])
    ensures SameButPins(d.variant, old(d.board.regs), d.board.regs)
  {
    hide SameButPins, Frames, Kicks, Effect, Entry, Added, Traced, TimerKept, Mclk;
    SameReflexive(d.variant, d.board.regs);
    ghost var regs, log := d.board.pic.regs, d.board.pic.log;
    got := [];
    var i := 0;
    AddedNothing(log);
    while i < |ops|
      invariant 0 <= i <= |ops| && |got| == i
      invariant d.Ok() && !d.wdtBusy && old(d.timing.fires) <= d.timing.fires
      invariant d.board.pic.regs == Store(regs, ops[..i])
      invariant Added(log, d.board.pic.log, Report(regs, ops[..i]), d.timing.fires - old(d.timing.fires))
      invariant forall k | 0 <= k < i && ops[k].ReadReg? ::
                  got[k] == LastWritten(ops[..k], ops[k].addr, regs[ops[k].addr])
      invariant SameButPins(d.variant, old(d.board.regs), d.board.regs)
    {
      ghost var b, n := d.board, d.timing.fires;
      var ret := Perform(d, ops[i]);
      if ops[i].ReadReg? {
        StoreKeepsLast(regs, ops[..i], ops[i].addr);
      }
      got := got + [ret];
      assert ops[..i + 1] == ops[..i] + [ops[i]];
      StoreSplits(regs, ops[..i], [ops[i]]);
      Single(b.pic.regs, ops[i]);
      AddedAppend(log, b.pic.log, d.board.pic.log, Report(regs, ops[..i]), n - old(d.timing.fires),
                  [Entry(b.pic.regs, ops[i])], d.timing.fires - n);
      Wires.SameTransitive(d.variant, old(d.board.regs), b.regs, d.board.regs);
      i := i + 1;
    }
    assert ops[..|ops|] == ops;
    AddedKeeps(log, d.board.pic.log, Report(regs, ops), d.timing.fires - old(d.timing.fires));
  }
}
